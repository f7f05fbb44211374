/**
 A J1939-22 receiver on a bus that loses, duplicates and reorders the frames of
 one transfer, broadcast or directed, every segment being sent once. Delivery is
 decided by announced sizes, so subscribers may see a shortened message: a prefix.
 */
module Lossy22 {
  import opened Common
  import opened Wire
  import opened Transport22
  import opened Frames22

  /** One message and its addresses; `dst` is GLOBAL for a broadcast. */
  datatype Message = Message(
    sender: Config, receiver: Config, src: int, dst: int, session: int, priority: int, pgn: int, payload: seq<int>)
  {
    ghost predicate Valid() {
      && sender.Valid() && receiver.Valid()
      && IsByte(src) && IsByte(dst) && 0 <= session < 16 && 0 <= pgn < 0x2_0000
      && 61 <= |payload| <= 16777215
    }

    function Started(): (Frame, SndBuf) { Start(sender, payload, dst, src, priority, pgn, session, 1.0) }

    function Announcement(): Frame { Started().0 }

    function Pgn(): int { if dst == GLOBAL then pgn else pgn - pgn % 0x100 }

    function Total(): int { Segments(|payload|) }

    function Segment(i: nat): Frame { DtFrame(src, dst, session, i + 1, Chunk(payload, i)) }

    function Status(): Frame { EomStatusFrame(src, dst, session, |payload|, Total(), Pgn()) }

    /** What subscribers see when the first `r` segments were gathered. */
    function Delivered(r: nat): Delivery { Deliver(7, Pgn(), src, dst, Prefix(payload, r)) }
  }

  /** What the bus and the clock may do to the receiver next. */
  datatype Event =
    | Announce(clock: real)
    | Data(i: nat, clock: real)
    | Status(clock: real)
    | Pass(now: real)

  function React(m: Message, buf: Option<RcvBuf>, e: Event): (r: (Option<RcvBuf>, seq<Delivery>)) {
    match e
    case Announce(clock) => var r := Receive(m.receiver, buf, m.Announcement(), clock); (r.buf, r.out)
    case Data(i, clock) => var r := Receive(m.receiver, buf, m.Segment(i), clock); (r.buf, r.out)
    case Status(clock) => var r := Receive(m.receiver, buf, m.Status(), clock); (r.buf, r.out)
    case Pass(now) => (RcvJob(buf, now).buf, [])
  }

  /** Everything delivered while the events happen one after the other. */
  function Run(m: Message, buf: Option<RcvBuf>, es: seq<Event>): (r: (Option<RcvBuf>, seq<Delivery>))
    decreases |es|
  {
    if es == [] then (buf, [])
    else
      var (b1, out1) := React(m, buf, es[0]);
      var (b2, out2) := Run(m, b1, es[1..]);
      (b2, out1 + out2)
  }

  /** Events only concern segments the message has. */
  ghost predicate OfMessage(m: Message, es: seq<Event>) {
    forall e :: e in es && e.Data? ==> e.i < m.Total()
  }

  /** A receive buffer of this message after `next - 1` segments. */
  ghost predicate Partial(m: Message, buf: Option<RcvBuf>) {
    buf.Some? ==> var b := buf.value;
      && b.pgn == m.Pgn() && b.size == |m.payload| && b.num == m.Total()
      && 1 <= b.next <= m.Total() + 1 && b.data == Prefix(m.payload, b.next - 1)
      && (m.dst != GLOBAL ==> b.window.Some?)
  }

  // ---- the single steps ----

  function AnnouncementCm(m: Message): Cm {
    Cm(if m.dst == GLOBAL then BAM else RTS, m.session, |m.payload|, m.Total(),
       if m.dst == GLOBAL then 0xFF else Min(m.sender.maxCmdt, m.Total()), m.Pgn())
  }

  lemma AnnouncementCarries(m: Message)
    requires m.Valid()
    ensures Carries(m.Announcement(), m.priority % 8, m.src, m.dst, AnnouncementCm(m))
  {
    hide CmData, Decode, Carries;
    SegmentBounds(|m.payload|);
    FrameCarries(m.priority, m.src, m.dst, AnnouncementCm(m), 0);
  }

  /** An announcement opens an empty buffer; in an open session it changes nothing, or closes a broadcast. */
  lemma AnnounceStep(m: Message, buf: Option<RcvBuf>, clock: real)
    requires m.Valid() && Partial(m, buf)
    ensures var (b, out) := React(m, buf, Announce(clock));
            && Partial(m, b) && out == []
            && (buf.None? ==> b.Some? && b.value.next == 1)
            && (buf.Some? ==> b == if m.dst == GLOBAL then None else buf)
  {
    hide CmData, Decode, PduFrame;
    AnnouncementCarries(m);
    assert Prefix(m.payload, 0) == [];
    SegmentBounds(|m.payload|);
  }

  lemma SegmentRoutes(m: Message, buf: Option<RcvBuf>, i: nat, clock: real)
    requires m.Valid() && i < m.Total()
    ensures var data := m.Segment(i).data;
            && |data| > 4 && SegmentOf(data) == i + 1 && data == DtData(m.session, i + 1, Chunk(m.payload, i)).0
            && Receive(m.receiver, buf, m.Segment(i), clock) == OnDt(buf, m.src, m.dst, data, clock)
  {
    SegmentBounds(|m.payload|);
    DtContent(m.session, i + 1, Chunk(m.payload, i));
  }

  /** The expected segment adds its bytes, any other one changes nothing. */
  lemma DataStep(m: Message, buf: Option<RcvBuf>, i: nat, clock: real)
    requires m.Valid() && Partial(m, buf) && i < m.Total()
    ensures var (b, out) := React(m, buf, Data(i, clock));
            && Partial(m, b) && out == [] && (b.Some? <==> buf.Some?)
            && (buf.Some? ==> b.value.next - 1 == Advance(buf.value.next - 1, Data(i, clock)))
  {
    hide DtData, Chunk, CtsFrame, SegmentOf, SessionOf, Prefix, Take;
    SegmentRoutes(m, buf, i, clock);
    if buf.Some? && buf.value.next == i + 1 {
      AppendSegment(m.payload, m.session, i);
    }
  }

  lemma StatusCarries(m: Message)
    requires m.Valid()
    ensures Carries(m.Status(), 7, m.src, m.dst, Cm(EOM_STATUS, m.session, |m.payload|, m.Total(), 0, m.Pgn()))
  {
    SegmentBounds(|m.payload|);
    EomStatusCarries(m.src, m.dst, m.session, |m.payload|, m.Total(), m.Pgn());
  }

  /** The status closes the session and delivers what was gathered, complete or not. */
  lemma StatusStep(m: Message, buf: Option<RcvBuf>, clock: real)
    requires m.Valid() && Partial(m, buf)
    ensures React(m, buf, Status(clock)) == (None, if buf.Some? then [m.Delivered(buf.value.next - 1)] else [])
  {
    hide CmData, Decode, PduFrame, Prefix;
    StatusCarries(m);
  }

  // ---- safety over every run ----

  ghost predicate IsPrefixDelivery(m: Message, d: Delivery) {
    exists r: nat :: r <= m.Total() && d == m.Delivered(r)
  }

  lemma StepKeepsPartial(m: Message, buf: Option<RcvBuf>, e: Event)
    requires m.Valid() && Partial(m, buf) && (e.Data? ==> e.i < m.Total())
    ensures Partial(m, React(m, buf, e).0)
    ensures forall d :: d in React(m, buf, e).1 ==> IsPrefixDelivery(m, d)
  {
    match e {
      case Announce(clock) => AnnounceStep(m, buf, clock);
      case Data(i, clock) => DataStep(m, buf, i, clock);
      case Status(clock) => StatusStep(m, buf, clock);
      case Pass(now) =>
    }
  }

  /** Whatever happens to the frames of the transfer, everything delivered is a prefix of the payload. */
  lemma {:induction false} PrefixDelivery(m: Message, buf: Option<RcvBuf>, es: seq<Event>)
    requires m.Valid() && Partial(m, buf) && OfMessage(m, es)
    ensures Partial(m, Run(m, buf, es).0)
    ensures forall d :: d in Run(m, buf, es).1 ==> IsPrefixDelivery(m, d)
    decreases |es|
  {
    hide React, IsPrefixDelivery, Partial;
    if es != [] {
      assert es[0] in es;
      StepKeepsPartial(m, buf, es[0]);
      assert OfMessage(m, es[1..]);
      PrefixDelivery(m, React(m, buf, es[0]).0, es[1..]);
    }
  }

  // ---- how long the delivered prefix is ----

  /** Segments gathered after one more event. */
  function Advance(r: int, e: Event): int {
    if e.Data? && e.i == r then r + 1 else r
  }

  /** Segments gathered after the events, counted without looking at any buffer. */
  function Reached(es: seq<Event>, r: int): int {
    if es == [] then r else Reached(es[1..], Advance(r, es[0]))
  }

  /** Segments `from .. n - 1` arrive in this order, with anything in between. */
  predicate ArriveInOrder(es: seq<Event>, from: nat, n: nat) {
    from >= n
    || (es != [] && (ArriveInOrder(es[1..], from, n)
                     || (es[0].Data? && es[0].i == from && ArriveInOrder(es[1..], from + 1, n))))
  }

  lemma {:induction false} ArriveLater(es: seq<Event>, from: nat, n: nat)
    requires ArriveInOrder(es, from, n)
    ensures ArriveInOrder(es, from + 1, n)
    decreases |es|
  {
    if from + 1 < n {
      if ArriveInOrder(es[1..], from, n) { ArriveLater(es[1..], from, n); }
      else { assert ArriveInOrder(es[1..], from + 1, n); }
    }
  }

  /** Counting greedily finds the segments in order whenever they are there. */
  lemma {:induction false} ReachedIsInOrder(es: seq<Event>, r: nat, n: nat)
    requires r <= n
    ensures Reached(es, r) >= n <==> ArriveInOrder(es, r, n)
    ensures Reached(es, r) >= r
    decreases |es|
  {
    if es != [] {
      ReachedIsInOrder(es[1..], r, n);
      if es[0].Data? && es[0].i == r && r < n {
        ReachedIsInOrder(es[1..], r + 1, n);
        if ArriveInOrder(es[1..], r, n) { ArriveLater(es[1..], r, n); }
      } else if r == n {
        ReachedGrows(es, r);
      }
    }
  }

  lemma {:induction false} ReachedGrows(es: seq<Event>, r: int)
    ensures Reached(es, r) >= r
  {
    if es != [] { ReachedGrows(es[1..], Advance(r, es[0])); }
  }

  /** What happens between the announcement and the status. */
  ghost predicate OneTransfer(m: Message, es: seq<Event>) {
    OfMessage(m, es) && forall e :: e in es ==> !e.Status? && !e.Announce?
  }

  // ---- how long the session stays open ----

  /** The window the receiver grants at a time. */
  function Window(m: Message): int { Min(m.receiver.maxCmdt, Min(m.sender.maxCmdt, m.Total())) }

  function FirstDeadline(m: Message, start: real): real {
    start + (if m.dst == GLOBAL then T1 else T2)
  }

  /**
   The deadline once `r` segments are there, the last one gathered at `clock`: T2 where
   a window ends and a grant goes out, T1 otherwise; a complete broadcast keeps its own.
   */
  function NextDeadline(m: Message, r: int, clock: real, deadline: real): real
    requires Window(m) > 0
  {
    if m.dst == GLOBAL then (if r == m.Total() then deadline else clock + T1)
    else clock + (if r < m.Total() && r % Window(m) == 0 then T2 else T1)
  }

  /** No pass of the job thread finds the deadline passed; counted without looking at any buffer. */
  predicate StaysOpen(m: Message, es: seq<Event>, r: int, deadline: real)
    requires Window(m) > 0
    decreases |es|
  {
    if es == [] then true
    else match es[0]
      case Data(i, clock) =>
        if i == r then StaysOpen(m, es[1..], r + 1, NextDeadline(m, r + 1, clock, deadline))
        else StaysOpen(m, es[1..], r, deadline)
      case Pass(now) => (deadline == 0.0 || now < deadline) && StaysOpen(m, es[1..], r, deadline)
      case _ => StaysOpen(m, es[1..], r, deadline)
  }

  /** Without a pass of the job thread nothing times out. */
  lemma {:induction false} NoPassStaysOpen(m: Message, es: seq<Event>, r: int, deadline: real)
    requires Window(m) > 0 && forall e :: e in es ==> !e.Pass?
    ensures StaysOpen(m, es, r, deadline)
    decreases |es|
  {
    if es != [] {
      assert es[0] in es;
      NoPassStaysOpen(m, es[1..], Advance(r, es[0]),
                      if es[0].Data? && es[0].i == r then NextDeadline(m, r + 1, es[0].clock, deadline) else deadline);
    }
  }

  /** An open buffer with `r` segments and this deadline; its border is the end of the window `r` lies in. */
  ghost predicate Timed(m: Message, b: RcvBuf, r: nat, deadline: real) {
    && Partial(m, Some(b)) && b.next == r + 1 && b.deadline == deadline && Window(m) > 0
    && (m.dst != GLOBAL && r < m.Total() ==>
          b.window == Some(Window(m)) && b.border == Min((r / Window(m) + 1) * Window(m), m.Total()))
  }

  /** Where the window of a segment ends. */
  lemma WindowEnd(r: nat, w: int)
    requires w > 0
    ensures r < (r / w + 1) * w
    ensures (r + 1) % w == 0 <==> r + 1 == (r / w + 1) * w
    ensures (r / w + 1) * w + w == (r / w + 2) * w
    ensures (r + 1) / w == if (r + 1) % w == 0 then r / w + 1 else r / w
  {
    var q, x := r / w, r % w;
    assert (q + 1) * w == q * w + w && (q + 2) * w == q * w + 2 * w;
    if x + 1 == w { DivUnique(r + 1, w, q + 1, 0); } else { DivUnique(r + 1, w, q, x + 1); }
  }

  lemma WindowPositive(m: Message)
    requires m.Valid()
    ensures 1 <= Window(m) <= m.Total()
  {
    SegmentBounds(|m.payload|);
  }

  lemma TimedStart(m: Message, start: real)
    requires m.Valid()
    ensures var (b, out) := React(m, None, Announce(start));
            Window(m) > 0 && b.Some? && Timed(m, b.value, 0, FirstDeadline(m, start)) && out == []
  {
    hide CmData, Decode, PduFrame;
    WindowPositive(m);
    AnnounceStep(m, None, start);
    AnnouncementCarries(m);
  }

  /** The expected segment moves the deadline as `NextDeadline` says. */
  lemma TimedData(m: Message, b: RcvBuf, r: nat, deadline: real, clock: real)
    requires m.Valid() && Timed(m, b, r, deadline) && r < m.Total()
    ensures var (after, out) := React(m, Some(b), Data(r, clock));
            after.Some? && Timed(m, after.value, r + 1, NextDeadline(m, r + 1, clock, deadline)) && out == []
  {
    hide DtData, Chunk, CtsFrame, SegmentOf, SessionOf, Prefix, Take, Window;
    DataStep(m, Some(b), r, clock);
    SegmentRoutes(m, Some(b), r, clock);
    AppendSegment(m.payload, m.session, r);
    WindowEnd(r, Window(m));
  }

  lemma OtherData(m: Message, b: RcvBuf, r: nat, i: nat, clock: real)
    requires m.Valid() && b.next == r + 1 && i < m.Total() && i != r
    ensures React(m, Some(b), Data(i, clock)) == (Some(b), [])
  {
    hide DtData, Chunk, SegmentOf, SessionOf;
    SegmentRoutes(m, Some(b), i, clock);
  }

  lemma PassStep(m: Message, b: RcvBuf, now: real)
    ensures React(m, Some(b), Pass(now)) == (if b.deadline == 0.0 || now < b.deadline then Some(b) else None, [])
  {
  }

  /** What happens once the transfer timed out and its frames still trickle in. */
  lemma {:induction false} StaysClosed(m: Message, es: seq<Event>)
    requires m.Valid() && OneTransfer(m, es)
    ensures Run(m, None, es) == (None, [])
    decreases |es|
  {
    if es != [] {
      assert es[0] in es;
      if es[0].Data? { DataStep(m, None, es[0].i, es[0].clock); }
      StaysClosed(m, es[1..]);
      var nothing := React(m, None, es[0]).1;
      assert nothing == [] && nothing + nothing == nothing;
    }
  }

  /** The buffer is there exactly while nothing timed out, and holds the segments counted by `Reached`. */
  lemma {:induction false} GathersReached(m: Message, b: RcvBuf, es: seq<Event>, r: nat, deadline: real)
    requires m.Valid() && Timed(m, b, r, deadline) && OneTransfer(m, es)
    ensures var (after, out) := Run(m, Some(b), es);
            && out == [] && (after.Some? <==> StaysOpen(m, es, r, deadline))
            && (after.Some? ==> Partial(m, after) && after.value.next - 1 == Reached(es, r))
    decreases |es|
  {
    hide React, Partial, Window, NextDeadline, FirstDeadline;
    if es != [] {
      assert es[0] in es;
      assert OneTransfer(m, es[1..]);
      TimedNext(m, b, r);
      match es[0] {
        case Data(i, clock) =>
          if i == r {
            TimedData(m, b, r, deadline, clock);
            var next := React(m, Some(b), es[0]).0.value;
            assert [] + Run(m, Some(next), es[1..]).1 == Run(m, Some(next), es[1..]).1;
            GathersReached(m, next, es[1..], r + 1, NextDeadline(m, r + 1, clock, deadline));
          } else {
            OtherData(m, b, r, i, clock);
            assert [] + Run(m, Some(b), es[1..]).1 == Run(m, Some(b), es[1..]).1;
            GathersReached(m, b, es[1..], r, deadline);
          }
        case Pass(now) =>
          PassStep(m, b, now);
          var next := React(m, Some(b), es[0]).0;
          assert [] + Run(m, next, es[1..]).1 == Run(m, next, es[1..]).1;
          if next.Some? { GathersReached(m, b, es[1..], r, deadline); } else { StaysClosed(m, es[1..]); }
      }
    }
  }

  lemma TimedNext(m: Message, b: RcvBuf, r: nat)
    requires Partial(m, Some(b)) && b.next == r + 1
    ensures r <= m.Total()
  {
  }

  lemma {:induction false} RunAppend(m: Message, buf: Option<RcvBuf>, es: seq<Event>, e: Event)
    ensures var (b, out) := Run(m, buf, es); var (b1, out1) := React(m, b, e);
            Run(m, buf, es + [e]) == (b1, out + out1)
    decreases |es|
  {
    hide React;
    if es == [] {
      assert es + [e] == [e] && [e][1..] == [];
      var (b1, out1) := React(m, buf, e);
      assert Run(m, b1, []) == (b1, []) && out1 + [] == out1 == [] + out1;
    } else {
      assert (es + [e])[1..] == es[1..] + [e];
      var (b0, out0) := React(m, buf, es[0]);
      RunAppend(m, b0, es[1..], e);
      var (b, out) := Run(m, b0, es[1..]);
      Associate(out0, out, React(m, b, e).1);
    }
  }

  /** The prefix is the whole payload exactly when all segments were gathered. */
  lemma WholePrefix(payload: seq<int>, r: nat)
    requires payload != [] && r <= Segments(|payload|)
    ensures Prefix(payload, r) == payload <==> r == Segments(|payload|)
  {
    SegmentBounds(|payload|);
    assert r < Segments(|payload|) ==> |Prefix(payload, r)| < |payload|;
  }

  /**
   One announcement, any data segments lost, duplicated or reordered, then the
   status. If no pass in between found the deadline passed, the prefix up to the
   first missing segment is delivered, and it is the whole payload if and only if
   the segments contain all of 1..n in this order; otherwise nothing is delivered.
   */
  lemma DeliveryIsWholeIffInOrder(m: Message, start: real, es: seq<Event>, end: real)
    requires m.Valid() && OneTransfer(m, es)
    ensures Window(m) > 0 && 0 <= Reached(es, 0)
    ensures var out := Run(m, None, [Announce(start)] + es + [Status(end)]).1;
            var open := StaysOpen(m, es, 0, FirstDeadline(m, start));
            && out == (if open then [m.Delivered(Reached(es, 0))] else [])
            && (Prefix(m.payload, Reached(es, 0)) == m.payload <==> ArriveInOrder(es, 0, m.Total()))
  {
    hide React, Prefix, Window, FirstDeadline;
    TimedStart(m, start);
    var b := React(m, None, Announce(start)).0.value;
    GathersReached(m, b, es, 0, FirstDeadline(m, start));
    RunAppend(m, Some(b), es, Status(end));
    var after := Run(m, Some(b), es).0;
    ClosedOrPartial(m, after);
    StatusStep(m, after, end);
    RunFirst(m, start, b, es, end);
    SegmentBounds(|m.payload|);
    ReachedIsInOrder(es, 0, m.Total());
    ReachedWithin(m, es, 0);
    WholePrefix(m.payload, Reached(es, 0));
  }

  lemma {:induction false} ReachedWithin(m: Message, es: seq<Event>, r: nat)
    requires OfMessage(m, es) && r <= m.Total()
    ensures r <= Reached(es, r) <= m.Total()
    decreases |es|
  {
    if es != [] {
      assert es[0] in es;
      ReachedWithin(m, es[1..], Advance(r, es[0]));
    }
  }

  lemma ClosedOrPartial(m: Message, buf: Option<RcvBuf>)
    requires buf.Some? ==> Partial(m, buf)
    ensures Partial(m, buf)
  {
  }

  lemma RunFirst(m: Message, start: real, b: RcvBuf, es: seq<Event>, end: real)
    requires React(m, None, Announce(start)) == (Some(b), [])
    ensures Run(m, None, [Announce(start)] + es + [Status(end)]).1 == Run(m, Some(b), es + [Status(end)]).1
  {
    hide React;
    var all := [Announce(start)] + es + [Status(end)];
    assert all[1..] == es + [Status(end)];
    assert [] + Run(m, Some(b), all[1..]).1 == Run(m, Some(b), all[1..]).1;
  }

  /** All segments in order before the status, and no pass of the job thread: the payload is delivered, once. */
  lemma LosslessDelivers(m: Message, start: real, es: seq<Event>, end: real)
    requires m.Valid() && OneTransfer(m, es) && ArriveInOrder(es, 0, m.Total()) && forall e :: e in es ==> !e.Pass?
    ensures Run(m, None, [Announce(start)] + es + [Status(end)]).1 == [m.Delivered(m.Total())]
    ensures Prefix(m.payload, m.Total()) == m.payload
  {
    hide React, Prefix, Run, ArriveInOrder;
    DeliveryIsWholeIffInOrder(m, start, es, end);
    NoPassStaysOpen(m, es, 0, FirstDeadline(m, start));
    SegmentBounds(|m.payload|);
    ReachedIsInOrder(es, 0, m.Total());
    ReachedWithin(m, es, 0);
  }

  // ---- the frames of a broadcast ----

  /** A broadcast buffer with segments from `next` on stored as they were cut. */
  ghost predicate Broadcasting(m: Message, b: SndBuf) {
    && b.session == m.session && b.size == |m.payload| && b.num == m.Total() == |b.data| && b.pgn == m.Pgn()
    && b.src == m.src && b.dst == GLOBAL && b.deadline > 0.0 && 0 <= b.next <= b.num
    && b.state == (if b.next < b.num then SendingBam else SendingEomStatus)
    && (forall i :: b.next <= i < b.num ==> b.data[i] == Chunk(m.payload, i))
  }

  /** Frames of any passes over a send buffer. */
  function PassFrames(cfg: Config, buf: Option<SndBuf>, passes: seq<JobPass>): (r: (Option<SndBuf>, seq<Frame>))
    requires buf.Some? ==> SndWf(buf.value)
    decreases |passes|
  {
    if passes == [] || buf.None? then (buf, [])
    else
      var r := SndJob(cfg, buf.value, passes[0].now, passes[0].clock);
      var (b2, more) := PassFrames(cfg, r.buf, passes[1..]);
      (b2, r.sent + more)
  }

  /** Segments `i`, `i + 1`, ... and the status behind them. */
  function FramesFrom(m: Message, i: nat): (r: seq<Frame>)
    requires i <= m.Total()
    ensures |r| == m.Total() - i + 1
    decreases m.Total() - i
  {
    if i == m.Total() then [m.Status()] else [m.Segment(i)] + FramesFrom(m, i + 1)
  }

  lemma BroadcastStep(m: Message, b: SndBuf, now: real, clock: real)
    requires m.Valid() && m.dst == GLOBAL && m.session < 4 && Broadcasting(m, b) && SndWf(b) && clock > 0.0
    ensures var r := SndJob(m.sender, b, now, clock);
            if b.deadline > now then r == SndResult(Some(b), [], [], Keep)
            else if b.next == b.num then r.buf.None? && r.sent == [m.Status()] && r.release == FreeBam(m.session)
            else
              && r.buf.Some? && Broadcasting(m, r.buf.value) && r.buf.value.next == b.next + 1
              && r.buf.value.deadline == clock + m.sender.bamInterval
              && r.sent == [m.Segment(b.next)] && r.release == Keep
  {
    hide DtData, Chunk, CmData, PduFrame;
  }

  /**
   Over any passes a broadcast sends its segments in order and then the status, one
   frame in each pass that is due and none in the others, and its buffer goes with
   the status.
   */
  lemma {:induction false} BroadcastSendsAll(m: Message, b: SndBuf, passes: seq<JobPass>)
    requires m.Valid() && m.dst == GLOBAL && m.session < 4 && Broadcasting(m, b) && SndWf(b)
    requires b.next <= m.Total() && forall p :: p in passes ==> p.clock > 0.0
    ensures var left := m.Total() - b.next + 1;
            var n := DueFrames(passes, b.deadline, m.sender.bamInterval, left);
            var (buf, frames) := PassFrames(m.sender, Some(b), passes);
            && frames == FramesFrom(m, b.next)[..n] && (buf.None? <==> n == left)
    decreases |passes|
  {
    hide SndJob, Broadcasting, PassFrames, FramesFrom, SndWf;
    BroadcastNext(m, b);
    var left := m.Total() - b.next + 1;
    if passes == [] {
      PassFramesNone(m.sender, Some(b));
    } else {
      var now, clock, rest := passes[0].now, passes[0].clock, passes[1..];
      assert passes[0] in passes;
      BroadcastStep(m, b, now, clock);
      PassFramesCons(m.sender, b, passes);
      FramesFromNext(m, b.next);
      var r := SndJob(m.sender, b, now, clock);
      if b.deadline > now {
        BroadcastSendsAll(m, b, rest);
        assert [] + PassFrames(m.sender, Some(b), rest).1 == PassFrames(m.sender, Some(b), rest).1;
      } else if b.next < b.num {
        BroadcastNext(m, r.buf.value);
        BroadcastSendsAll(m, r.buf.value, rest);
        var n := DueFrames(rest, clock + m.sender.bamInterval, m.sender.bamInterval, left - 1);
        ConsTake(m.Segment(b.next), FramesFrom(m, b.next + 1), n);
      } else {
        PassFramesGone(m.sender, rest);
        assert FramesFrom(m, b.next)[..1] == [m.Status()];
        assert [m.Status()] + [] == [m.Status()];
      }
    }
  }

  lemma PassFramesNone(cfg: Config, buf: Option<SndBuf>)
    requires buf.Some? ==> SndWf(buf.value)
    ensures PassFrames(cfg, buf, []) == (buf, [])
  {
  }

  lemma PassFramesGone(cfg: Config, passes: seq<JobPass>)
    ensures PassFrames(cfg, None, passes) == (None, [])
  {
  }

  lemma PassFramesCons(cfg: Config, b: SndBuf, passes: seq<JobPass>)
    requires SndWf(b) && passes != []
    ensures var r := SndJob(cfg, b, passes[0].now, passes[0].clock);
            var more := PassFrames(cfg, r.buf, passes[1..]);
            PassFrames(cfg, Some(b), passes) == (more.0, r.sent + more.1)
  {
    hide SndJob, SndWf;
  }

  lemma FramesFromNext(m: Message, i: nat)
    requires i <= m.Total()
    ensures FramesFrom(m, i) == if i == m.Total() then [m.Status()] else [m.Segment(i)] + FramesFrom(m, i + 1)
  {
  }

  lemma BroadcastNext(m: Message, b: SndBuf)
    requires Broadcasting(m, b)
    ensures 0 <= b.next <= b.num == m.Total()
  {
  }

  /** The buffer a broadcast starts with. */
  lemma BroadcastStarts(m: Message)
    requires m.Valid() && m.dst == GLOBAL && m.session < 4
    ensures var b := m.Started().1; Broadcasting(m, b) && SndWf(b) && b.next == 0
  {
    hide Chunk;
    SegmentBounds(|m.payload|);
  }

  // ---- sending a segment again ----

  /** The chunk continues the header by repeating it. */
  predicate RepeatsHeader(header: seq<int>, chunk: seq<int>)
    requires |header| == 4
  {
    forall i {:trigger chunk[i]} :: 0 <= i < |chunk| ==> chunk[i] == if i < 4 then header[i] else chunk[i - 4]
  }

  /** `x` in front of `chunk` shifts it by four. */
  lemma ShiftedIff(header: seq<int>, chunk: seq<int>)
    requires |header| == 4
    ensures (header + chunk)[..|chunk|] == chunk <==> RepeatsHeader(header, chunk)
  {
    var shifted := (header + chunk)[..|chunk|];
    assert forall i :: 0 <= i < |chunk| ==> shifted[i] == if i < 4 then header[i] else chunk[i - 4];
    if RepeatsHeader(header, chunk) {
      forall i | 0 <= i < |chunk| ensures shifted[i] == chunk[i] {
      }
      assert shifted == chunk;
    }
    if shifted == chunk { assert RepeatsHeader(header, chunk); }
  }

  /** The frame of a segment, sent first or again: header, then what is stored, cut at 64 bytes. */
  lemma DtShape(session: int, segment: int, stored: seq<int>)
    ensures var head := [session % 16 * 16] + Bytes(segment, FIELD);
            var (data, left) := DtData(session, segment, stored);
            && |head| == 4 && |left| >= 4 + |stored| && left[..4 + |stored|] == head + stored
            && |data| >= Min(4 + |stored|, 64)
            && data[..Min(4 + |stored|, 64)] == (head + stored)[..Min(4 + |stored|, 64)]
  {
  }

  /**
   Sending puts the header into the stored chunk. Sent again, the frame carries the
   header twice and the chunk four bytes later, so it is right if and only if the
   chunk repeats its own header all through.
   */
  lemma ResendIsRightIff(session: int, segment: int, chunk: seq<int>)
    requires |chunk| <= 60
    ensures var (first, stored) := DtData(session, segment, chunk);
            var again := DtData(session, segment, stored).0;
            && |first| >= 4 + |chunk| && |again| >= 4 + |chunk|
            && first[4..4 + |chunk|] == chunk
            && again[4..4 + |chunk|] == (first[..4] + chunk)[..|chunk|]
            && (again[4..4 + |chunk|] == chunk <==> RepeatsHeader(first[..4], chunk))
  {
    hide DtData, RepeatsHeader;
    var (first, stored) := DtData(session, segment, chunk);
    var again := DtData(session, segment, stored).0;
    var head := [session % 16 * 16] + Bytes(segment, FIELD);
    DtShape(session, segment, chunk);
    DtShape(session, segment, stored);
    FrontSlices(head, chunk, first);
    BehindHeader(head, stored, again, |chunk|);
    assert stored[..|chunk|] == stored[..4 + |chunk|][..|chunk|] == (head + chunk)[..|chunk|];
    ShiftedIff(head, chunk);
  }

  lemma BehindHeader(head: seq<int>, stored: seq<int>, data: seq<int>, n: nat)
    requires |head| == 4 && n <= |stored| && n <= 60
    requires var k := Min(4 + |stored|, 64); |data| >= k && data[..k] == (head + stored)[..k]
    ensures |data| >= 4 + n && data[4..4 + n] == stored[..n]
  {
    var k := Min(4 + |stored|, 64);
    forall i | 0 <= i < n ensures data[4 + i] == stored[i] {
      assert data[4 + i] == data[..k][4 + i] == (head + stored)[..k][4 + i];
    }
  }

  lemma FrontSlices(head: seq<int>, chunk: seq<int>, data: seq<int>)
    requires |head| == 4 && |data| >= 4 + |chunk| && data[..4 + |chunk|] == head + chunk
    ensures data[..4] == head && data[4..4 + |chunk|] == chunk
  {
    assert data[..4] == data[..4 + |chunk|][..4];
    assert data[4..4 + |chunk|] == data[..4 + |chunk|][4..];
  }

  /** 61 bytes of zeros, and a receiver that grants the first segment twice. */
  lemma RepeatedGrantGarbles(cfg: Config, clock: real)
    requires cfg.Valid()
    ensures var b0 := Start(cfg, Repeat(0, 61), 2, 1, 6, 0xEF00, 0, clock).1;
            var grant := Cm(CTS, 0, 0xFF_FFFF, 1, 1, 0xEF00);
            var b1 := OnCts(cfg, Some(b0), 2, 1, grant, clock).buf.value;
            SndWf(b1) && b1.next == 0 &&
            var (first, b2) := SendSegment(b1);
            var b3 := OnCts(cfg, Some(b2), 2, 1, grant, clock).buf.value;
            SndWf(b3) && b3.next == 0 &&
            var (second, _) := SendSegment(b3);
            |first.data| == |second.data| == 64 && first.data[4..] == Repeat(0, 60) && second.data[4..] != Repeat(0, 60)
  {
    hide DtData, Chunk, RepeatsHeader;
    var zeros := Repeat(0, 60);
    var b0 := Start(cfg, Repeat(0, 61), 2, 1, 6, 0xEF00, 0, clock).1;
    var grant := Cm(CTS, 0, 0xFF_FFFF, 1, 1, 0xEF00);
    FirstOfZeros();
    var b1 := OnCts(cfg, Some(b0), 2, 1, grant, clock).buf.value;
    assert Segments(61) == 2 && |b1.data| == 2 && b1.data[0] == zeros;
    var (first, b2) := SendSegment(b1);
    var b3 := OnCts(cfg, Some(b2), 2, 1, grant, clock).buf.value;
    var (second, _) := SendSegment(b3);
    assert first.data == DtData(0, 1, zeros).0 && b3.data[0] == DtData(0, 1, zeros).1;
    assert second.data == DtData(0, 1, b3.data[0]).0;
    ZerosResent();
  }

  lemma FirstOfZeros()
    ensures Chunk(Repeat(0, 61), 0) == Repeat(0, 60)
  {
  }

  lemma ZerosResent()
    ensures var zeros := Repeat(0, 60);
            var (first, stored) := DtData(0, 1, zeros);
            var again := DtData(0, 1, stored).0;
            |first| == |again| == 64 && first[4..] == zeros && again[4..] != zeros
  {
    hide DtData, RepeatsHeader;
    var zeros := Repeat(0, 60);
    var (first, stored) := DtData(0, 1, zeros);
    ResendIsRightIff(0, 1, zeros);
    DtShape(0, 1, zeros);
    FirstHeader();
    HeaderNotRepeated(first[..4]);
    FullFrame(0, 1, zeros);
    FullFrame(0, 1, stored);
  }

  lemma HeaderNotRepeated(header: seq<int>)
    requires header == [0, 1, 0, 0]
    ensures !RepeatsHeader(header, Repeat(0, 60))
  {
    var zeros := Repeat(0, 60);
    assert zeros[1] == 0 != header[1];
  }

  lemma FirstHeader()
    ensures DtData(0, 1, Repeat(0, 60)).0[..4] == [0, 1, 0, 0]
  {
    DtShape(0, 1, Repeat(0, 60));
    assert Bytes(1, FIELD) == [1, 0, 0] by {
      assert Bytes(0, 2) == [0] + Bytes(0, 1) && Bytes(0, 1) == [0] + Bytes(0, 0);
    }
  }

  lemma FullFrame(session: int, segment: int, stored: seq<int>)
    requires |stored| >= 60
    ensures |DtData(session, segment, stored).0| == 64
  {
  }
}
