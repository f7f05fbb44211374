/**
 The heap of timer entries, the grid of points a timer is due at, and how one pass of
 the timer thread moves the timers along it.
 */
module TimerGrid {
  import opened Common

  /** One entry of `_timer_events`; the number breaks ties between equal deadlines. */
  datatype Event = Event(deadline: real, number: nat, callback: int, cookie: int, delta: real)

  /** The order of the heap. */
  predicate Before(a: Event, b: Event) {
    a.deadline < b.deadline || (a.deadline == b.deadline && a.number < b.number)
  }

  predicate Sorted(es: seq<Event>) {
    forall i, j :: 0 <= i < j < |es| ==> Before(es[i], es[j])
  }

  /** `heappush` */
  function Insert(es: seq<Event>, e: Event): seq<Event> {
    if es == [] || Before(e, es[0]) then [e] + es else [es[0]] + Insert(es[1..], e)
  }

  /** `remove_timer` */
  function Without(es: seq<Event>, callback: int): seq<Event> {
    if es == [] then [] else (if es[0].callback != callback then [es[0]] else []) + Without(es[1..], callback)
  }

  lemma {:induction false} InsertContents(es: seq<Event>, e: Event)
    ensures forall x :: x in Insert(es, e) <==> x == e || x in es
    ensures Insert(es, e) != []
  {
    if !(es == [] || Before(e, es[0])) {
      InsertContents(es[1..], e);
      assert es == [es[0]] + es[1..];
    }
  }

  lemma {:induction false} InsertLength(es: seq<Event>, e: Event)
    ensures |Insert(es, e)| == |es| + 1
  {
    if !(es == [] || Before(e, es[0])) { InsertLength(es[1..], e); }
  }

  lemma {:induction false} InsertSorted(es: seq<Event>, e: Event)
    requires Sorted(es) && forall x :: x in es ==> x.number != e.number
    ensures Sorted(Insert(es, e))
  {
    if es == [] || Before(e, es[0]) {
    } else {
      assert Sorted(es[1..]);
      assert forall x :: x in es[1..] ==> x in es;
      InsertSorted(es[1..], e);
      InsertContents(es[1..], e);
      HeadBefore(es, e);
    }
  }

  lemma HeadBefore(es: seq<Event>, e: Event)
    requires Sorted(es) && es != [] && Before(es[0], e) && Sorted(Insert(es[1..], e))
    requires forall x :: x in Insert(es[1..], e) <==> x == e || x in es[1..]
    ensures Sorted([es[0]] + Insert(es[1..], e))
  {
    var rest := Insert(es[1..], e);
    forall i | 0 <= i < |rest| ensures Before(es[0], rest[i]) {
      assert rest[i] in rest;
    }
  }

  lemma {:induction false} WithoutContents(es: seq<Event>, callback: int)
    ensures forall x :: x in Without(es, callback) <==> x in es && x.callback != callback
  {
    if es != [] {
      WithoutContents(es[1..], callback);
      assert es == [es[0]] + es[1..];
    }
  }

  lemma {:induction false} WithoutSorted(es: seq<Event>, callback: int)
    requires Sorted(es)
    ensures Sorted(Without(es, callback))
  {
    if es != [] {
      WithoutSorted(es[1..], callback);
      WithoutContents(es[1..], callback);
      var rest := Without(es[1..], callback);
      forall i | 0 <= i < |rest| ensures Before(es[0], rest[i]) {
        assert rest[i] in rest;
      }
    }
  }

  // ---- the grid of a timer ----

  function Grid(start: real, delta: real, k: nat): real {
    start + k as real * delta
  }

  lemma GridNext(start: real, delta: real, k: nat)
    ensures Grid(start, delta, k + 1) == Grid(start, delta, k) + delta
  {
    assert (k + 1) as real == k as real + 1.0;
  }

  lemma GridMonotone(start: real, delta: real, j: nat, k: nat)
    requires j <= k && delta >= 0.0
    ensures Grid(start, delta, j) <= Grid(start, delta, k)
  {
    RealMulMono(j as real, k as real, delta);
  }

  lemma RealMulMono(x: real, y: real, d: real)
    requires x <= y && 0.0 <= d
    ensures x * d <= y * d
  {
  }

  /** Walking on from a point of the grid stays on it. */
  lemma GridSum(start: real, delta: real, j: nat, k: nat)
    ensures Grid(Grid(start, delta, j), delta, k) == Grid(start, delta, j + k)
  {
    var a, b := j as real, k as real;
    assert (j + k) as real == a + b;
    assert (a + b) * delta == a * delta + b * delta;
  }

  /** Point `k` of the grid is the first one after `now`. */
  ghost predicate FirstAfter(start: real, delta: real, k: nat, now: real) {
    Grid(start, delta, k) > now && (k > 0 ==> Grid(start, delta, k - 1) <= now)
  }

  /** There is only one such point, and none earlier on the grid lies after `now`. */
  lemma FirstAfterIsLeast(start: real, delta: real, k: nat, now: real, j: nat)
    requires delta > 0.0 && FirstAfter(start, delta, k, now) && Grid(start, delta, j) > now
    ensures k <= j
  {
    if j < k { GridMonotone(start, delta, j, k - 1); }
  }

  /**
   Looking for the next deadline ends if and only if the period is positive or the
   very first step is enough.
   */
  lemma SearchEndsIff(start: real, delta: real, now: real)
    ensures (exists k: nat :: k >= 1 && Grid(start, delta, k) >= now) <==> delta > 0.0 || start + delta >= now
  {
    GridNext(start, delta, 0);
    if start + delta >= now {
      assert Grid(start, delta, 1) >= now;
    } else if delta > 0.0 {
      var q := (now - start) / delta;
      assert q * delta == now - start;
      var k: nat := q.Floor + 1;
      RealMulMono(q, k as real, delta);
      assert Grid(start, delta, k) >= now;
    } else {
      forall k: nat | k >= 1 ensures Grid(start, delta, k) < now {
        RealMulMono(1.0, k as real, -delta);
        assert k as real * delta == -(k as real * -delta);
      }
    }
  }

  // ---- why a pass ends ----

  /** A due timer fires once more when its next point is exactly `now`. */
  function Weight(es: seq<Event>, now: real): nat {
    if es == [] then 0
    else (if es[0].deadline < now then 2 else if es[0].deadline == now then 1 else 0) + Weight(es[1..], now)
  }

  lemma {:induction false} InsertWeight(es: seq<Event>, e: Event, now: real)
    ensures Weight(Insert(es, e), now) == Weight(es, now) + Weight([e], now)
  {
    assert [e][1..] == [];
    if es == [] || Before(e, es[0]) {
      assert ([e] + es)[1..] == es;
    } else {
      InsertWeight(es[1..], e, now);
      assert ([es[0]] + Insert(es[1..], e))[1..] == Insert(es[1..], e);
    }
  }

  /** `(k + 1)`-th point after `k`-th: one step of the search takes one off this measure. */
  lemma StepsLeft(d: real, delta: real, now: real)
    requires delta > 0.0 && d < now
    ensures 0.0 <= (now - d) / delta && (now - (d + delta)) / delta == (now - d) / delta - 1.0
  {
    var q := (now - d) / delta;
    var p := (now - (d + delta)) / delta;
    assert q * delta == now - d;
    assert p * delta == now - d - delta;
    assert (q - 1.0) * delta == q * delta - delta;
    RealMulCancel(p, q - 1.0, delta);
  }

  lemma RealMulCancel(x: real, y: real, d: real)
    requires 0.0 < d && x * d == y * d
    ensures x == y
  {
    assert (x - y) * d == 0.0;
  }

  /** Where a timer comes from: the event it was when the pass began, and how many periods ago. */
  datatype Origin = Origin(event: Event, periods: nat)

  /** `e` is the event it was, or was moved along its grid to `now` or just behind it. */
  ghost predicate Descends(o: Origin, e: Event, now: real) {
    var s := o.event;
    && e.callback == s.callback && e.cookie == s.cookie && e.delta == s.delta
    && e.deadline == Grid(s.deadline, s.delta, o.periods)
    && (o.periods == 0 ==> e == s)
    && (o.periods > 0 ==> s.deadline <= now <= e.deadline && Grid(s.deadline, s.delta, o.periods - 1) <= now)
  }

  /** The state between two callbacks of a pass that began with the events `first`. */
  ghost predicate Passing(first: seq<Event>, es: seq<Event>, batch: seq<Event>, origins: map<nat, Origin>, now: real) {
    && Sorted(batch) && (forall b :: b in batch ==> b.deadline <= now)
    && (forall b, e :: b in batch && e in es ==> Before(b, e))
    && (forall e :: e in first ==> e in es || (e in batch && e.deadline <= now))
    && (forall e :: e in es ==>
          e.number in origins && origins[e.number].event in first && Descends(origins[e.number], e, now))
    && (forall d, e :: d in es && e in es && origins[d.number].event == origins[e.number].event ==> d == e)
  }

  lemma PassStarts(first: seq<Event>, origins: map<nat, Origin>, now: real)
    requires forall d, e :: d in first && e in first && d.number == e.number ==> d == e
    requires forall e :: e in first ==> e.number in origins && origins[e.number] == Origin(e, 0)
    ensures Passing(first, first, [], origins, now)
  {
  }

  lemma PopPasses(first: seq<Event>, es: seq<Event>, batch: seq<Event>, origins: map<nat, Origin>, now: real)
    requires Passing(first, es, batch, origins, now) && Sorted(es) && es != [] && es[0].deadline <= now
    ensures Passing(first, es[1..], batch + [es[0]], origins, now)
    ensures forall e :: e in es[1..] ==> origins[e.number].event != origins[es[0].number].event
    ensures forall b :: b in batch + [es[0]] ==> b.deadline <= es[0].deadline
  {
    hide Descends;
    var e, rest := es[0], es[1..];
    assert es == [e] + rest;
    forall x | x in rest ensures Before(e, x) && x != e {
      var i :| 0 <= i < |rest| && rest[i] == x;
      assert es[i + 1] == x;
    }
  }

  lemma PushPasses(first: seq<Event>, es: seq<Event>, batch: seq<Event>, origins: map<nat, Origin>, now: real,
                   e: Event, o: Origin)
    requires Passing(first, es, batch, origins, now)
    requires forall x :: x in es ==> x.number != e.number && origins[x.number].event != o.event
    requires forall b :: b in batch ==> Before(b, e)
    requires o.event in first && Descends(o, e, now)
    ensures Passing(first, Insert(es, e), batch, origins[e.number := o], now)
  {
    hide Descends;
    InsertContents(es, e);
  }

  /** The origin of a timer moved on by `k` more periods. */
  lemma DescendsOn(o: Origin, e: Event, next: Event, k: nat, now: real)
    requires Descends(o, e, now) && e.deadline <= now && k >= 1
    requires next == e.(deadline := next.deadline, number := next.number)
              && next.deadline == Grid(e.deadline, e.delta, k)
    requires next.deadline >= now && Grid(e.deadline, e.delta, k - 1) <= now
    ensures Descends(Origin(o.event, o.periods + k), next, now)
  {
    GridSum(o.event.deadline, e.delta, o.periods, k);
    GridSum(o.event.deadline, e.delta, o.periods, k - 1);
  }

  /** A timer that stays is its origin moved to the first point of the grid after `now`. */
  ghost predicate MovedTo(first: seq<Event>, o: Origin, e: Event, now: real) {
    && o.event in first
    && e.callback == o.event.callback && e.cookie == o.event.cookie && e.delta == o.event.delta
    && e.deadline == Grid(o.event.deadline, e.delta, o.periods)
    && FirstAfter(o.event.deadline, e.delta, o.periods, now)
    && (o.event.deadline > now ==> e == o.event)
  }

  /** What each timer that stays has become once nothing is due. */
  ghost predicate Moved(first: seq<Event>, es: seq<Event>, origins: map<nat, Origin>, now: real) {
    && (forall e :: e in es ==> e.number in origins && MovedTo(first, origins[e.number], e, now))
    && Apart(es, origins)
  }

  /** No two timers come from the same one. */
  ghost predicate Apart(es: seq<Event>, origins: map<nat, Origin>)
    requires forall e :: e in es ==> e.number in origins
  {
    forall d, e :: d in es && e in es && origins[d.number].event == origins[e.number].event ==> d == e
  }

  lemma PassEnds(first: seq<Event>, es: seq<Event>, batch: seq<Event>, origins: map<nat, Origin>, now: real)
    requires Passing(first, es, batch, origins, now) && Sorted(es) && (es != [] ==> es[0].deadline > now)
    ensures forall e :: e in es ==> e.deadline > now
    ensures Sorted(batch) && forall e :: e in batch ==> e.deadline <= now
    ensures forall e :: e in first ==> if e.deadline <= now then e in batch else e in es
    ensures Moved(first, es, origins, now)
  {
    forall e | e in es ensures e.deadline > now {
      var i :| 0 <= i < |es| && es[i] == e;
      assert i > 0 ==> Before(es[0], es[i]);
    }
    forall e | e in es ensures Descends(origins[e.number], e, now) {
    }
  }

  /** First deadline of a timer, and the number of periods since then, by event number. */
  type History = map<nat, (real, nat)>

  /** The timer is still on the grid its origin was on, so many periods further. */
  ghost predicate CarriesOn(before: History, after: History, e: Event, o: Origin) {
    && e.number in after && o.event.number in before
    && after[e.number] == (before[o.event.number].0, before[o.event.number].1 + o.periods)
  }

  ghost predicate Continues(before: History, after: History, es: seq<Event>, origins: map<nat, Origin>) {
    forall e :: e in es ==> e.number in origins && CarriesOn(before, after, e, origins[e.number])
  }

  lemma ContinuesStart(history: History, es: seq<Event>, origins: map<nat, Origin>)
    requires forall e :: e in es ==> e.number in history && e.number in origins && origins[e.number] == Origin(e, 0)
    ensures Continues(history, history, es, origins)
  {
  }

  lemma ContinuesPush(before: History, after: History, es: seq<Event>, origins: map<nat, Origin>,
                      next: Event, o: Origin, h: (real, nat))
    requires Continues(before, after, es, origins)
    requires forall x :: x in es ==> x.number != next.number
    requires CarriesOn(before, after[next.number := h], next, o)
    ensures Continues(before, after[next.number := h], Insert(es, next), origins[next.number := o])
  {
    hide Insert;
    InsertContents(es, next);
  }

  lemma ContinuesPop(before: History, after: History, es: seq<Event>, origins: map<nat, Origin>)
    requires Continues(before, after, es, origins) && es != []
    ensures Continues(before, after, es[1..], origins) && es[0].number in origins
    ensures CarriesOn(before, after, es[0], origins[es[0].number])
  {
    assert forall e :: e in es[1..] ==> e in es;
  }

  /** Origins over two passes. */
  ghost function Compose(first: map<nat, Origin>, second: map<nat, Origin>): map<nat, Origin> {
    map n | n in second && second[n].event.number in first ::
      Origin(first[second[n].event.number].event, first[second[n].event.number].periods + second[n].periods)
  }

  lemma MovedFrom(first: seq<Event>, es: seq<Event>, origins: map<nat, Origin>, now: real)
    requires Moved(first, es, origins, now)
    ensures forall e :: e in es ==> e.number in origins && origins[e.number].event in first
  {
    hide Grid, FirstAfter;
  }

  lemma ComposeContinues(a: History, b: History, c: History, mid: seq<Event>, es: seq<Event>,
                         first: map<nat, Origin>, second: map<nat, Origin>, now: real)
    requires Continues(a, b, mid, first) && Continues(b, c, es, second) && Moved(mid, es, second, now)
    ensures Continues(a, c, es, Compose(first, second))
  {
    hide Grid, FirstAfter;
    MovedFrom(mid, es, second, now);
    hide Moved;
    forall e | e in es
      ensures e.number in Compose(first, second) && CarriesOn(a, c, e, Compose(first, second)[e.number])
    {
      assert second[e.number].event in mid;
      assert CarriesOn(b, c, e, second[e.number]);
      assert CarriesOn(a, b, second[e.number].event, first[second[e.number].event.number]);
    }
  }

  /** Two passes one after the other move a timer like one pass at the later time. */
  lemma ComposeMoved(before: seq<Event>, mid: seq<Event>, es: seq<Event>, first: map<nat, Origin>,
                     second: map<nat, Origin>, earlier: real, now: real)
    requires Moved(before, mid, first, earlier) && Moved(mid, es, second, now) && earlier <= now
    requires forall d, e :: d in mid && e in mid && d.number == e.number ==> d == e
    ensures Moved(before, es, Compose(first, second), now)
  {
    hide Grid, FirstAfter, MovedTo, Apart;
    var origins := Compose(first, second);
    forall e | e in es ensures e.number in origins && MovedTo(before, origins[e.number], e, now) {
      OriginInFirst(mid, second[e.number], e, now);
      var o2 := second[e.number];
      ComposeMovedTo(before, mid, first[o2.event.number], o2, e, earlier, now);
    }
    MovedFrom(mid, es, second, now);
    ComposeApart(mid, es, first, second);
  }

  lemma ComposeApart(mid: seq<Event>, es: seq<Event>, first: map<nat, Origin>, second: map<nat, Origin>)
    requires forall e :: e in mid ==> e.number in first
    requires forall e :: e in es ==> e.number in second && second[e.number].event in mid
    requires Apart(mid, first) && Apart(es, second)
    ensures Apart(es, Compose(first, second))
  {
    var origins := Compose(first, second);
    forall d, e | d in es && e in es && origins[d.number].event == origins[e.number].event ensures d == e {
      var d1, e1 := second[d.number].event, second[e.number].event;
      assert d1 in mid && e1 in mid && first[d1.number].event == first[e1.number].event;
    }
  }

  lemma OriginInFirst(first: seq<Event>, o: Origin, e: Event, now: real)
    requires MovedTo(first, o, e, now)
    ensures o.event in first
  {
  }

  lemma ComposeMovedTo(before: seq<Event>, mid: seq<Event>, o1: Origin, o2: Origin, e: Event, earlier: real, now: real)
    requires MovedTo(before, o1, o2.event, earlier) && MovedTo(mid, o2, e, now) && earlier <= now
    ensures MovedTo(before, Origin(o1.event, o1.periods + o2.periods), e, now)
  {
    hide Grid, FirstAfter;
    FirstAfterTwice(o1.event.deadline, e.delta, o1.periods, o2.periods, earlier, now);
    NotMoved(o1, o2, e, earlier, now);
  }

  /** A timer not due at the later time was not due at the earlier one. */
  lemma NotMoved(o1: Origin, o2: Origin, e: Event, earlier: real, now: real)
    requires earlier <= now
    requires o1.event.deadline > earlier ==> o2.event == o1.event
    requires o2.event.deadline > now ==> e == o2.event
    ensures o1.event.deadline > now ==> e == o1.event
  {
  }

  lemma FirstAfterTwice(start: real, delta: real, j: nat, k: nat, earlier: real, now: real)
    requires earlier <= now && FirstAfter(start, delta, j, earlier) && FirstAfter(Grid(start, delta, j), delta, k, now)
    ensures FirstAfter(start, delta, j + k, now) && Grid(Grid(start, delta, j), delta, k) == Grid(start, delta, j + k)
  {
    hide Grid;
    GridSum(start, delta, j, k);
    if k > 0 { GridSum(start, delta, j, k - 1); }
  }
}
