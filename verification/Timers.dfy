/**
 The periodic timers of an ECU: a heap of deadlines, served by one pass of the
 timer thread. Callbacks answer whether they want to be called again and leave the
 timers alone; a callback that raises is not called again.
 */
module Timers {
  import opened Common
  import opened TimerGrid
  import opened TimerCalls

  class Timers {
    var events: seq<Event>
    var number: nat
    ghost var fired: seq<Event>
    /** First deadline and number of periods since then, of every timer. */
    ghost var history: map<nat, (real, nat)>

    /** No drift: every deadline lies on the grid the timer was started with. */
    ghost predicate OnGrid()
      reads this
    {
      forall e :: e in events ==>
        e.number in history && e.deadline == Grid(history[e.number].0, e.delta, history[e.number].1)
    }

    ghost predicate Valid()
      reads this
    {
      && Sorted(events) && (forall e :: e in events ==> e.number < number)
      && (forall d, e :: d in events && e in events && d.number == e.number ==> d == e)
      && OnGrid()
    }

    constructor ()
      ensures Valid() && events == [] && fired == [] && number == 0 && history == map[]
    {
      events, number, fired, history := [], 0, [], map[];
    }

    method AddTimer(delta: real, callback: int, cookie: int, clock: real)
      requires Valid()
      modifies this
      ensures Valid() && fired == old(fired) && number == old(number) + 1
      ensures history == old(history)[old(number) := (clock + delta, 0)]
      ensures forall e :: e in events <==>
                e in old(events) || e == Event(clock + delta, old(number), callback, cookie, delta)
    {
      Push(Event(clock + delta, number, callback, cookie, delta), clock + delta, 0);
    }

    /** Puts an event into the heap. */
    method Push(e: Event, ghost start: real, ghost periods: nat)
      requires Valid() && e.number == number && e.deadline == Grid(start, e.delta, periods)
      modifies this`events, this`number, this`history
      ensures Valid() && number == old(number) + 1 && events == Insert(old(events), e)
      ensures history == old(history)[e.number := (start, periods)]
      ensures forall x :: x in events <==> x in old(events) || x == e
    {
      InsertContents(events, e);
      InsertSorted(events, e);
      events := Insert(events, e);
      history := history[e.number := (start, periods)];
      number := number + 1;
    }

    /** Removes all entries of the callback and no others. */
    method RemoveTimer(callback: int)
      requires Valid()
      modifies this`events
      ensures Valid() && forall e :: e in events <==> e in old(events) && e.callback != callback
    {
      WithoutContents(events, callback);
      WithoutSorted(events, callback);
      events := Without(events, callback);
    }

    /** The next point of the grid that is not before `now`. */
    method NextDeadline(e: Event, now: real) returns (deadline: real, ghost periods: nat)
      requires e.delta > 0.0 && e.deadline <= now
      ensures periods >= 1 && deadline == Grid(e.deadline, e.delta, periods)
      ensures deadline >= now && Grid(e.deadline, e.delta, periods - 1) <= now
      ensures periods > 1 ==> Grid(e.deadline, e.delta, periods - 1) < now
    {
      deadline := e.deadline + e.delta;
      periods := 1;
      GridNext(e.deadline, e.delta, 0);
      while deadline < now
        invariant periods >= 1 && deadline == Grid(e.deadline, e.delta, periods)
        invariant Grid(e.deadline, e.delta, periods - 1) <= now
        invariant periods > 1 ==> Grid(e.deadline, e.delta, periods - 1) < now
        decreases (now - deadline) / e.delta
      {
        StepsLeft(deadline, e.delta, now);
        GridNext(e.deadline, e.delta, periods);
        deadline := deadline + e.delta;
        periods := periods + 1;
      }
    }

    /** Calls the first timer back and, if it wants to, puts it behind `now` again. */
    method FireFirst(now: real, reschedule: bool, ghost first: seq<Event>, ghost start: History,
                     ghost origins: map<nat, Origin>, ghost calls: seq<Call>)
      returns (ghost origins1: map<nat, Origin>, ghost call: Call)
      requires Valid() && (forall e :: e in events ==> e.delta > 0.0) && events != [] && events[0].deadline <= now
      requires Midway(first, start, events, history, origins, calls, now)
      modifies this
      ensures Valid() && forall e :: e in events ==> e.delta > 0.0
      ensures fired == old(fired) + [call.event] && call.answer == reschedule
      ensures Midway(first, start, events, history, origins1, calls + [call], now)
      ensures Weight(events, now) < old(Weight(events, now))
    {
      hide Midway, Insert, Grid, NextEntry;
      origins1 := origins;
      var e := events[0];
      PopHeap();
      fired := fired + [e];
      KnownOrigin(first, start, old(events), history, origins, calls, now);
      call := Call(e, origins[e.number], reschedule);
      if reschedule {
        ghost var h := history[e.number];
        ghost var next, periods;
        next, periods := Reschedule(e, now);
        MidwayAgain(first, start, old(events), h, old(history), origins, calls, now, next, periods);
        origins1 := origins[next.number := Origin(call.origin.event, call.origin.periods + periods)];
      } else {
        MidwayStop(first, start, old(events), history, origins, calls, now);
      }
    }

    /** Puts a timer just called back behind `now` again. */
    method Reschedule(e: Event, now: real) returns (ghost next: Event, ghost periods: nat)
      requires Valid() && (forall x :: x in events ==> x.delta > 0.0) && e.delta > 0.0 && e.deadline <= now
      requires e.number in history && e.deadline == Grid(history[e.number].0, e.delta, history[e.number].1)
      modifies this`events, this`number, this`history
      ensures Valid() && forall x :: x in events ==> x.delta > 0.0
      ensures next.number == old(number) && NextEntry(e, next, periods, now) && events == Insert(old(events), next)
      ensures var h := old(history)[e.number]; history == old(history)[next.number := (h.0, h.1 + periods)]
      ensures Weight(events, now) <= old(Weight(events, now)) + (if e.deadline < now then 1 else 0)
    {
      hide Insert, Grid;
      var deadline;
      deadline, periods := NextDeadline(e, now);
      ghost var h := history[e.number];
      GridSum(h.0, e.delta, h.1, periods);
      var entry := Event(deadline, number, e.callback, e.cookie, e.delta);
      next := entry;
      LaterPoint(e, periods);
      InsertWeight(events, next, now);
      Push(entry, h.0, h.1 + periods);
    }

    /** `heappop` */
    method PopHeap()
      requires Valid() && events != []
      modifies this`events
      ensures Valid() && events == old(events[1..])
      ensures forall e :: e in events ==> e in old(events)
    {
      assert forall e :: e in events[1..] ==> e in events;
      events := events[1..];
    }

    /**
     One pass of the timer thread, `again(k)` being the answer of the `k`-th callback
     of the pass. It ends; due timers fire in the order of deadline and number, nothing
     else does; every deadline lies after `now` afterwards; a timer stays if and only if
     it never said no; timers that were not due are untouched; and each timer that stays
     has moved to the first point of its grid after `now`.
     */
    method Pass(now: real, again: nat -> bool)
      returns (wakeup: real, ghost calls: seq<Call>, ghost origins: map<nat, Origin>)
      requires Valid() && forall e :: e in events ==> e.delta > 0.0
      modifies this
      ensures Valid() && fired == old(fired) + Entries(calls)
      ensures Sorted(Entries(calls)) && AllGenuine(old(events), calls, now)
      ensures Answers(calls, again)
      ensures forall e :: e in old(events) ==> if e.deadline <= now then e in Entries(calls) else e in events
      ensures forall e :: e in events ==> e.deadline > now
      ensures Kept(old(events), events, origins, calls) && Credited(events, origins, calls)
      ensures |events| == |old(events)| - |Refusals(calls)|
      ensures Repeated(calls, now)
      ensures Moved(old(events), events, origins, now)
      ensures Continues(old(history), history, events, origins)
      ensures wakeup == if events == [] then now + 5.0 else events[0].deadline
    {
      hide Weight, Midway, Answers, Moved, Continues, Kept, Credited, AllGenuine, Repeated, Refusals;
      calls := [];
      origins := map e | e in events :: e.number := Origin(e, 0);
      MidwayStart(events, history, origins, now, again);
      wakeup := now + 5.0;
      var k := 0;
      while events != [] && events[0].deadline <= now
        invariant Valid() && forall e :: e in events ==> e.delta > 0.0
        invariant fired == old(fired) + Entries(calls)
        invariant k == |calls| && Answers(calls, again)
        invariant Midway(old(events), old(history), events, history, origins, calls, now)
        decreases Weight(events, now)
      {
        ghost var call;
        origins, call := FireFirst(now, again(k), old(events), old(history), origins, calls);
        Associate(old(fired), Entries(calls), [call.event]);
        EntriesSnoc(calls, call);
        AnswersSnoc(calls, call, again);
        calls := calls + [call];
        k := k + 1;
      }
      MidwayDone(old(events), old(history), events, history, origins, calls, now);
      if events != [] { wakeup := events[0].deadline; }
    }

    /**
     The timer thread: passes at the times `nows`, `again(i, k)` being the answer of the
     `k`-th callback of pass `i`. However many there are: a timer is there afterwards if
     and only if it never said no; until then it is called by every pass before which a
     point of its grid has come up, always at a point of that grid; and it lies at the
     first point after the last pass of the grid it was started with, so no drift
     accumulates.
     */
    method TimerJobThread(nows: seq<real>, again: (nat, nat) -> bool)
      returns (ghost log: seq<seq<Call>>, ghost origins: map<nat, Origin>)
      requires Valid() && (forall e :: e in events ==> e.delta > 0.0)
      requires nows != [] && forall i, j :: 0 <= i <= j < |nows| ==> nows[i] <= nows[j]
      modifies this
      ensures Valid() && fired == old(fired) + Entries(Concat(log))
      ensures |log| == |nows| && AllPunctual(old(events), log, nows, |nows|)
      ensures Answered(log, again)
      ensures AllOnGrid(old(events), Concat(log)) && Kept(old(events), events, origins, Concat(log))
      ensures Moved(old(events), events, origins, nows[|nows| - 1])
      ensures Continues(old(history), history, events, origins)
    {
      hide Ongoing, Passes, Concat, Moved;
      log := [];
      origins := map e | e in events :: e.number := Origin(e, 0);
      OngoingStart(events, history, origins, nows, again);
      for i := 0 to |nows|
        invariant Valid() && forall e :: e in events ==> e.delta > 0.0
        invariant |log| == i && fired == old(fired) + Entries(Concat(log))
        invariant Ongoing(old(events), old(history), events, history, origins, log, nows, again)
      {
        ghost var before, earlier := events, history;
        ghost var wakeup, calls, second;
        wakeup, calls, second := Pass(nows[i], (k: nat) => again(i, k));
        StillPositive(before, events, second, nows[i]);
        PassIs(before, earlier, events, history, second, calls, nows[i]);
        OngoingNext(old(events), old(history), before, earlier, origins, log, nows, again, events, history, second,
            calls);
        Associate(old(fired), Entries(Concat(log)), Entries(calls));
        log := log + [Traced(calls, origins)];
        origins := Compose(origins, second);
      }
      OngoingDone(old(events), old(history), events, history, origins, log, nows, again);
    }
  }
}
