/**
 One directed J1939-22 transfer end to end: sender and receiver joined by two
 lossless first-in first-out channels, run by any interleaving of receptions
 and job passes in which no timeout expires.
 */
module Session22 {
  import opened Common
  import W = Windows
  import opened Wire
  import opened Transport22
  import opened Frames22

  datatype Session = Session(
    sender: Config, receiver: Config, a: int, b: int, number: int, priority: int, pgn: int, payload: seq<int>)
  {
    /** Messages the protocol exists for: more than one segment, sizes that fit three bytes. */
    ghost predicate Valid() {
      && sender.Valid() && receiver.Valid()
      && IsByte(a) && IsByte(b) && b != GLOBAL && 0 <= number < 8
      && 0 <= pgn < 0x2_0000
      && 61 <= |payload| <= 16777215
    }

    function Total(): int { Segments(|payload|) }

    function Window(): int { Min(sender.maxCmdt, Min(receiver.maxCmdt, Total())) }

    function Pgn(): int { pgn - pgn % 0x100 }

    /** The size of `c` full windows. */
    function Granted(c: nat): int { W.Granted(Window(), c) }

    function Border(c: nat): int { W.Border(Window(), Total(), c) }

    function Rts(): Frame {
      RtsFrame(priority, a, b, number, Pgn(), |payload|, Total(), Min(sender.maxCmdt, Total()))
    }

    function Dt(i: nat): Frame { DtFrame(a, b, number, i + 1, Chunk(payload, i)) }

    function Cts(i: nat): Frame {
      CtsFrame(b, a, number, Min(Window(), Total() - Granted(i)), Granted(i) + 1, Pgn())
    }

    function Status(): Frame { EomStatusFrame(a, b, number, |payload|, Total(), Pgn()) }

    function Ack(): Frame { EomAckFrame(b, a, number, |payload|, Total(), Pgn()) }

    /** The announcement, the first `k` segments, and the status behind the last one. */
    function SentLog(k: nat): (l: seq<Frame>)
      ensures |l| == k + 1
    {
      if k == 0 then [Rts()] else SentLog(k - 1) + [Dt(k - 1)]
    }

    /** The status follows the last segment. */
    function FullLog(k: nat): seq<Frame> { if k == Total() then SentLog(k) + [Status()] else SentLog(k) }

    function GrantLog(c: nat): (l: seq<Frame>)
      ensures |l| == c
    {
      if c == 0 then [] else GrantLog(c - 1) + [Cts(c - 1)]
    }

    /** What the first `r` segments carry, without padding. */
    function Gathered(r: nat): seq<int> { Prefix(payload, r) }

    function Delivered(): Delivery { ToSubscribers(7, Pgn(), a, b, payload) }
  }

  datatype Net = Net(
    snd: Option<SndBuf>, rcv: Option<RcvBuf>,
    logS: seq<Frame>, readR: int, logR: seq<Frame>, readS: int,
    delivered: seq<Delivery>, notified: seq<Delivery>)

  datatype Action =
    | ToReceiver(clock: real)
    | ToSender(clock: real)
    | SenderJob(now: real, clock: real)
    | ReceiverJob(now: real)

  function Init(s: Session, clock: real): (net: Net)
    ensures s.Valid() && clock > 0.0 ==> Inv(s, net)
  {
    var (frame, buf) := Start(s.sender, s.payload, s.b, s.a, s.priority, s.pgn, s.number, clock);
    Net(Some(buf), None, [frame], 0, [], 0, [], [])
  }

  ghost predicate WellFormed(net: Net) {
    && 0 <= net.readR <= |net.logS| && 0 <= net.readS <= |net.logR|
    && (net.snd.Some? ==> SndWf(net.snd.value))
  }

  /** The action can happen and no timeout runs out in it. */
  predicate Enabled(net: Net, x: Action) {
    match x
    case ToReceiver(clock) => clock > 0.0 && net.readR < |net.logS|
    case ToSender(clock) => clock > 0.0 && net.readS < |net.logR|
    case SenderJob(now, clock) => clock > 0.0 && net.snd.Some?
      && (net.snd.value.state.WaitingCts? || net.snd.value.state.WaitingEomAck? ==> now < net.snd.value.deadline)
    case ReceiverJob(now) => net.rcv.Some? ==> now < net.rcv.value.deadline
  }

  function Step(s: Session, net: Net, x: Action): Net
    requires WellFormed(net) && Enabled(net, x)
  {
    match x
    case ToReceiver(clock) =>
      var r := Receive(s.receiver, net.rcv, net.logS[net.readR], clock);
      net.(rcv := r.buf, readR := net.readR + 1, logR := net.logR + r.sent, delivered := net.delivered + r.out)
    case ToSender(clock) =>
      var r := Answer(s.sender, net.snd, net.logR[net.readS], clock);
      net.(snd := r.buf, readS := net.readS + 1, logS := net.logS + r.sent, notified := net.notified + r.out)
    case SenderJob(now, clock) =>
      var r := SndJob(s.sender, net.snd.value, now, clock);
      net.(snd := r.buf, logS := net.logS + r.sent)
    case ReceiverJob(now) =>
      var r := RcvJob(net.rcv, now);
      net.(rcv := r.buf, logR := net.logR + r.sent)
  }

  // ---- the coupling invariant ----

  /** Segments from `next` on are still stored as they were cut. */
  ghost predicate SndIs(s: Session, net: Net, next: int) {
    net.snd.Some? && var b := net.snd.value;
    && b.pgn == s.Pgn() && b.session == s.number && b.size == |s.payload| && b.num == s.Total() == |b.data|
    && b.src == s.a && b.dst == s.b && b.next == next && b.deadline > 0.0 && 0 <= next
    && (forall i :: next <= i < b.num ==> b.data[i] == Chunk(s.payload, i))
  }

  ghost predicate RcvIs(s: Session, net: Net, r: int, border: int)
    requires 0 <= r
  {
    net.rcv.Some? && var b := net.rcv.value;
    && b.pgn == s.Pgn() && b.session == s.number && b.size == |s.payload| && b.num == s.Total()
    && b.src == s.a && b.dst == s.b
    && b.next == r + 1 && b.border == border && b.window == Some(s.Window()) && b.data == s.Gathered(r)
  }

  ghost predicate Announcing(s: Session, net: Net) {
    && net.readR == 0 && net.logS == [s.Rts()] && net.logR == [] && net.readS == 0
    && net.rcv.None? && net.delivered == []
    && SndIs(s, net, 0) && net.snd.value.state.WaitingCts?
  }

  /** The sender after `k` segments of which `border` are granted. */
  ghost predicate SenderAt(s: Session, net: Net, k: int, border: int) {
    && SndIs(s, net, k) && 0 <= k <= border
    && net.logS == s.FullLog(k)
    && net.snd.value.state
        == (if k == s.Total() then WaitingEomAck else if k < border then SendingRtsCts else WaitingCts)
    && (k < border ==> net.snd.value.waitOn == border - 1)
  }

  /** `r` segments have arrived, `c` windows have been granted. */
  ghost predicate ReceiverAt(s: Session, net: Net) {
    var r, c := net.readR - 1, |net.logR|;
    && 0 <= r && 1 <= c
    && net.logR == s.GrantLog(c) && s.Border(c - 1) <= r < s.Border(c)
    && RcvIs(s, net, r, s.Border(c)) && net.delivered == []
  }

  ghost predicate Transferring(s: Session, net: Net) {
    var c := |net.logR|;
    && ReceiverAt(s, net) && net.snd.Some?
    && var k := net.snd.value.next;
       && net.readR - 1 <= k
       && (|| (net.readS == c - 1 && SndIs(s, net, k) && net.snd.value.state.WaitingCts?
               && k == s.Border(c - 1) && net.logS == s.FullLog(k))
           || (net.readS == c && SenderAt(s, net, k, s.Border(c))))
  }

  /** All segments have arrived; the status is still unread. */
  ghost predicate Collected(s: Session, net: Net) {
    var c := |net.logR|;
    && 1 <= c && s.Border(c - 1) < s.Total() == s.Border(c)
    && net.readR == s.Total() + 1 && net.logR == s.GrantLog(c) && net.readS == c
    && SenderAt(s, net, s.Total(), s.Total())
    && RcvIs(s, net, s.Total(), s.Total()) && net.delivered == []
  }

  ghost predicate Delivering(s: Session, net: Net) {
    var c := |net.logR| - 1;
    && 1 <= c && s.Border(c - 1) < s.Total() == s.Border(c)
    && net.readR == s.Total() + 2 && net.logS == s.FullLog(s.Total())
    && net.logR == s.GrantLog(c) + [s.Ack()]
    && net.rcv.None? && net.delivered == [s.Delivered()]
    && (|| (net.readS == c && SenderAt(s, net, s.Total(), s.Total()))
        || (net.readS == c + 1 && (net.snd.None? ||
              (SndIs(s, net, s.Total()) && net.snd.value.state.EomAckReceived?))))
  }

  ghost predicate Inv(s: Session, net: Net) {
    Announcing(s, net) || Transferring(s, net) || Collected(s, net) || Delivering(s, net)
  }

  // ---- helper facts ----

  lemma TotalBounds(s: Session)
    requires s.Valid()
    ensures 2 <= s.Total() <= 279621
    ensures 60 * (s.Total() - 1) < |s.payload| <= 60 * s.Total()
    ensures 1 <= s.Window() <= s.Total() && s.Window() <= 255
  {
  }

  lemma {:induction false} SentAt(s: Session, k: nat, i: nat)
    requires i < k
    ensures s.SentLog(k)[i + 1] == s.Dt(i)
    decreases k
  {
    hide CtsFrame, DtFrame, RtsFrame, EomAckFrame, EomStatusFrame;
    if i < k - 1 { SentAt(s, k - 1, i); }
  }

  lemma {:induction false} GrantAt(s: Session, c: nat, i: nat)
    requires i < c
    ensures s.GrantLog(c)[i] == s.Cts(i)
    decreases c
  {
    if i < c - 1 { GrantAt(s, c - 1, i); }
  }

  lemma NextBorder(s: Session, c: nat)
    requires s.Valid() && s.Border(c) < s.Total()
    ensures s.Border(c) == s.Granted(c)
    ensures s.Border(c + 1) == Min(s.Border(c) + s.Window(), s.Total()) > s.Border(c)
    ensures s.Border(c + 1) - s.Border(c) == Min(s.Window(), s.Total() - s.Granted(c))
  {
    TotalBounds(s);
    W.NextBorder(s.Window(), s.Total(), c);
  }

  lemma DtRoutes(s: Session, buf: Option<RcvBuf>, i: nat, clock: real)
    requires s.Valid() && i < s.Total()
    ensures |s.Dt(i).data| > 4
    ensures Receive(s.receiver, buf, s.Dt(i), clock) == OnDt(buf, s.a, s.b, s.Dt(i).data, clock)
  {
    TotalBounds(s);
    DtContent(s.number, i + 1, Chunk(s.payload, i));
  }

  lemma RtsArrives(s: Session, buf: Option<RcvBuf>, clock: real)
    requires s.Valid()
    ensures var window := Min(s.sender.maxCmdt, s.Total());
            Receive(s.receiver, buf, s.Rts(), clock)
            == OnRts(s.receiver, buf, s.a, s.b, Cm(RTS, s.number, |s.payload|, s.Total(), window, s.Pgn()), clock)
  {
    TotalBounds(s);
    var m := Cm(RTS, s.number, |s.payload|, s.Total(), Min(s.sender.maxCmdt, s.Total()), s.Pgn());
    FrameCarries(s.priority, s.a, s.b, m, 0);
    Received(s.receiver, buf, s.Rts(), s.priority % 8, s.a, s.b, m, clock);
  }

  lemma StatusCarries(s: Session)
    requires s.Valid()
    ensures Carries(s.Status(), 7, s.a, s.b, Cm(EOM_STATUS, s.number, |s.payload|, s.Total(), 0, s.Pgn()))
  {
    TotalBounds(s);
    EomStatusCarries(s.a, s.b, s.number, |s.payload|, s.Total(), s.Pgn());
  }

  lemma StatusArrives(s: Session, b: RcvBuf, clock: real)
    requires s.Valid() && b.size == |s.payload| && b.num == s.Total() && b.pgn == s.Pgn() && b.data == s.payload
    ensures Receive(s.receiver, Some(b), s.Status(), clock)
         == RcvResult(None, [s.Ack()], [s.Delivered()], FreeRts(s.number), None)
  {
    hide Receive, Decode, Carries, EomStatusFrame, EomAckFrame;
    var m := Cm(EOM_STATUS, s.number, |s.payload|, s.Total(), 0, s.Pgn());
    StatusCarries(s);
    Received(s.receiver, Some(b), s.Status(), 7, s.a, s.b, m, clock);
    assert s.Pgn() % 0x100 == 0;
  }

  lemma CtsCarries(s: Session, grant: int, first: int)
    requires s.Valid() && IsByte(grant) && 0 <= first < 0x100_0000
    ensures Carries(CtsFrame(s.b, s.a, s.number, grant, first, s.Pgn()), 7, s.b, s.a,
                    Cm(CTS, s.number, 0xFF_FFFF, first, grant, s.Pgn()))
  {
    FrameCarries(7, s.b, s.a, Cm(CTS, s.number, 0xFF_FFFF, first, grant, s.Pgn()), 0);
  }

  lemma GrantArrives(s: Session, b: SndBuf, c: nat, clock: real)
    requires s.Valid() && s.Border(c) < s.Total() && b.num == s.Total()
    ensures Answer(s.sender, Some(b), s.Cts(c), clock)
         == SndResult(Some(b.(next := s.Border(c), waitOn := s.Border(c + 1) - 1, state := SendingRtsCts,
                              deadline := clock)), [], [], Keep)
  {
    hide Answer, Decode, Carries, CtsFrame;
    TotalBounds(s);
    NextBorder(s, c);
    W.GrantedMonotone(s.Window(), c, c);
    var grant, first := Min(s.Window(), s.Total() - s.Granted(c)), s.Granted(c) + 1;
    CtsCarries(s, grant, first);
    Answered(s.sender, Some(b), s.Cts(c), 7, s.b, s.a, Cm(CTS, s.number, 0xFF_FFFF, first, grant, s.Pgn()), clock);
  }

  lemma AckCarries(s: Session)
    requires s.Valid()
    ensures Carries(s.Ack(), 7, s.b, s.a, Cm(EOM_ACK, s.number, |s.payload|, s.Total(), 0xFF, s.Pgn()))
  {
    TotalBounds(s);
    EomAckCarries(s.b, s.a, s.number, |s.payload|, s.Total(), s.Pgn());
  }

  lemma AckArrives(s: Session, b: SndBuf, clock: real)
    requires s.Valid()
    ensures Answer(s.sender, Some(b), s.Ack(), clock)
         == SndResult(Some(b.(state := EomAckReceived, deadline := clock)), [],
                      [ToSubscribers(7, s.Pgn(), s.b, s.a, s.Ack().data)], Keep)
  {
    hide Answer, Decode, Carries, EomAckFrame;
    AckCarries(s);
    Answered(s.sender, Some(b), s.Ack(), 7, s.b, s.a,
             Cm(EOM_ACK, s.number, |s.payload|, s.Total(), 0xFF, s.Pgn()), clock);
  }

  // ---- every step keeps the invariant ----

  lemma InvWellFormed(s: Session, net: Net)
    requires s.Valid() && Inv(s, net)
    ensures WellFormed(net)
  {
    hide CtsFrame, DtFrame, RtsFrame, EomAckFrame, EomStatusFrame;
    TotalBounds(s);
  }

  lemma ReadAnnouncement(s: Session, net: Net, clock: real)
    requires s.Valid() && Announcing(s, net)
    requires WellFormed(net) && Enabled(net, ToReceiver(clock))
    ensures Transferring(s, Step(s, net, ToReceiver(clock)))
  {
    hide AbortFrame, CmData, Answer, DtFrame;
    TotalBounds(s);
    RtsArrives(s, net.rcv, clock);
    var after := Step(s, net, ToReceiver(clock));
    assert net.logS[0] == s.Rts();
    assert s.Border(0) == 0 && s.Border(1) == s.Window();
    assert after.logR == s.GrantLog(1);
    assert after.logS == s.FullLog(0);
    assert after.rcv.value.data == s.Gathered(0);
  }

  /** Appending a segment, padding included, and cutting at the announced size. */
  lemma GatherNext(s: Session, r: nat)
    requires s.Valid() && r < s.Total()
    ensures var all := s.Gathered(r) + s.Dt(r).data[4..];
            && (if r + 1 < s.Total() then |all| < |s.payload| && all == s.Gathered(r + 1)
                else |all| >= |s.payload| && Take(all, |s.payload|) == s.payload == s.Gathered(r + 1))
  {
    TotalBounds(s);
    AppendSegment(s.payload, s.number, r);
    assert s.Dt(r).data == DtData(s.number, r + 1, Chunk(s.payload, r)).0;
  }

  /** The receiver's reaction to segment `r + 1`, `more` being its buffer with the bytes added. */
  function SegmentOutcome(s: Session, more: RcvBuf, r: nat, border: int, clock: real): RcvResult {
    if r + 1 == s.Total() then
      RcvResult(Some(more.(deadline := clock + T1)), [], [], Keep, None)
    else if r + 1 == border then
      RcvResult(Some(more.(border := Min(border + s.Window(), s.Total()), deadline := clock + T2)),
                [CtsFrame(s.b, s.a, s.number, Min(s.Window(), s.Total() - border), border + 1, s.Pgn())],
                [], Keep, None)
    else
      RcvResult(Some(more.(deadline := clock + T1)), [], [], Keep, None)
  }

  /** What the receiver does with the segment it expects, whatever its padding. */
  lemma SegmentResult(s: Session, b: RcvBuf, r: nat, border: int, data: seq<int>, clock: real)
    requires s.Valid() && r < border <= s.Total() && |data| > 4
    requires b == RcvBuf(s.Pgn(), s.number, |s.payload|, s.Total(), r + 1, border, Some(s.Window()), s.Gathered(r),
                         b.deadline, s.a, s.b)
    requires SegmentOf(data) == r + 1 && SessionOf(data) == s.number
    requires var all := s.Gathered(r) + data[4..];
             if r + 1 < s.Total() then |all| < |s.payload| && all == s.Gathered(r + 1)
             else |all| >= |s.payload| && Take(all, |s.payload|) == s.payload == s.Gathered(r + 1)
    ensures var more := b.(data := s.Gathered(r + 1), next := r + 2);
            OnDt(Some(b), s.a, s.b, data, clock) == SegmentOutcome(s, more, r, border, clock)
  {
  }

  lemma DtArrives(s: Session, b: RcvBuf, r: nat, border: int, clock: real)
    requires s.Valid() && r < border <= s.Total()
    requires b == RcvBuf(s.Pgn(), s.number, |s.payload|, s.Total(), r + 1, border, Some(s.Window()), s.Gathered(r),
                         b.deadline, s.a, s.b)
    ensures var more := b.(data := s.Gathered(r + 1), next := r + 2);
            Receive(s.receiver, Some(b), s.Dt(r), clock) == SegmentOutcome(s, more, r, border, clock)
  {
    TotalBounds(s);
    DtRoutes(s, Some(b), r, clock);
    DtContent(s.number, r + 1, Chunk(s.payload, r));
    GatherNext(s, r);
    SegmentResult(s, b, r, border, s.Dt(r).data, clock);
  }

  /** The net after segment `r + 1` has been processed. */
  function AfterPacket(s: Session, net: Net, r: nat, clock: real): Net
    requires net.rcv.Some?
  {
    var border := s.Border(|net.logR|);
    var more := net.rcv.value.(data := s.Gathered(r + 1), next := r + 2);
    var read := net.(readR := net.readR + 1);
    if r + 1 < s.Total() && r + 1 == border then
      read.(rcv := Some(more.(border := Min(border + s.Window(), s.Total()), deadline := clock + T2)),
            logR := net.logR + [CtsFrame(s.b, s.a, s.number, Min(s.Window(), s.Total() - border), border + 1, s.Pgn())])
    else
      read.(rcv := Some(more.(deadline := clock + T1)))
  }

  lemma GatheredAll(s: Session)
    requires s.Valid()
    ensures s.Gathered(s.Total()) == s.payload
  {
    TotalBounds(s);
  }

  /** A reception whose outcome is known. */
  lemma Reception(s: Session, net: Net, clock: real, f: Frame, got: RcvResult)
    requires WellFormed(net) && Enabled(net, ToReceiver(clock))
    requires f == net.logS[net.readR] && got == Receive(s.receiver, net.rcv, f, clock)
    ensures Step(s, net, ToReceiver(clock))
         == net.(rcv := got.buf, readR := net.readR + 1, logR := net.logR + got.sent,
             delivered := net.delivered + got.out)
  {
  }

  lemma Reply(s: Session, net: Net, clock: real, f: Frame, got: SndResult)
    requires WellFormed(net) && Enabled(net, ToSender(clock))
    requires f == net.logR[net.readS] && got == Answer(s.sender, net.snd, f, clock)
    ensures Step(s, net, ToSender(clock))
         == net.(snd := got.buf, readS := net.readS + 1, logS := net.logS + got.sent,
             notified := net.notified + got.out)
  {
  }

  lemma PacketWaiting(s: Session, net: Net)
    requires s.Valid() && Transferring(s, net) && net.readR < |net.logS|
    ensures net.readR - 1 < net.snd.value.next && net.logS[net.readR] == s.Dt(net.readR - 1)
  {
    var r := net.readR - 1;
    var k := net.snd.value.next;
    SentAt(s, k, r);
  }

  lemma PacketStep(s: Session, net: Net, clock: real)
    requires s.Valid() && Transferring(s, net)
    requires WellFormed(net) && Enabled(net, ToReceiver(clock))
    ensures net.readR - 1 < net.snd.value.next
    ensures Step(s, net, ToReceiver(clock)) == AfterPacket(s, net, net.readR - 1, clock)
  {
    PacketWaiting(s, net);
    var r, b := net.readR - 1, net.rcv.value;
    DtArrives(s, b, r, s.Border(|net.logR|), clock);
    PacketOutcome(s, net, r, s.Dt(r), Receive(s.receiver, Some(b), s.Dt(r), clock), clock);
  }

  lemma PacketOutcome(s: Session, net: Net, r: nat, f: Frame, got: RcvResult, clock: real)
    requires WellFormed(net) && Enabled(net, ToReceiver(clock)) && net.rcv.Some?
    requires f == net.logS[net.readR] && got == Receive(s.receiver, net.rcv, f, clock)
    requires var more, border := net.rcv.value.(data := s.Gathered(r + 1), next := r + 2), s.Border(|net.logR|);
             got == SegmentOutcome(s, more, r, border, clock)
    ensures Step(s, net, ToReceiver(clock)) == AfterPacket(s, net, r, clock)
  {
    hide CtsFrame, DtFrame, RtsFrame, EomAckFrame, EomStatusFrame;
    Reception(s, net, clock, f, got);
    assert net.logR + [] == net.logR && net.delivered + [] == net.delivered;
  }

  lemma LastPacketInv(s: Session, net: Net, clock: real)
    requires s.Valid() && Transferring(s, net) && net.readR == s.Total() && net.readR - 1 < net.snd.value.next
    ensures Collected(s, AfterPacket(s, net, net.readR - 1, clock))
  {
  }

  lemma WindowFull(s: Session, net: Net, clock: real)
    requires s.Valid() && ReceiverAt(s, net) && net.readR == s.Border(|net.logR|) < s.Total()
    ensures ReceiverAt(s, AfterPacket(s, net, net.readR - 1, clock))
  {
    hide CtsFrame, Chunk;
    var after, c := AfterPacket(s, net, net.readR - 1, clock), |net.logR|;
    NextBorder(s, c);
    GrantLogNext(s, net, clock);
    assert |after.logR| == c + 1 && after.readR - 1 == net.readR;
    assert RcvIs(s, after, net.readR, s.Border(c + 1));
  }

  lemma GrantLogNext(s: Session, net: Net, clock: real)
    requires net.rcv.Some? && net.readR >= 1 && net.logR == s.GrantLog(|net.logR|)
              && net.readR == s.Border(|net.logR|) < s.Total()
    ensures AfterPacket(s, net, net.readR - 1, clock).logR == s.GrantLog(|net.logR| + 1)
  {
    NextCts(s, |net.logR|);
  }

  lemma NextCts(s: Session, c: nat)
    requires s.Border(c) == s.Granted(c)
    ensures s.Cts(c) == CtsFrame(s.b, s.a, s.number, Min(s.Window(), s.Total() - s.Border(c)), s.Border(c) + 1, s.Pgn())
  {
    var g, first := Min(s.Window(), s.Total() - s.Border(c)), s.Border(c) + 1;
    assert Min(s.Window(), s.Total() - s.Granted(c)) == g;
    assert s.Granted(c) + 1 == first;
    assert s.Cts(c) == CtsFrame(s.b, s.a, s.number, Min(s.Window(), s.Total() - s.Granted(c)), s.Granted(c) + 1,
        s.Pgn());
    assert s.Cts(c) == CtsFrame(s.b, s.a, s.number, g, first, s.Pgn());
  }

  lemma BorderPacketInv(s: Session, net: Net, clock: real)
    requires s.Valid() && Transferring(s, net) && net.readR - 1 < net.snd.value.next
    requires net.readR == s.Border(|net.logR|) < s.Total()
    ensures Transferring(s, AfterPacket(s, net, net.readR - 1, clock))
  {
    WindowFull(s, net, clock);
    assert net.readS == |net.logR| && net.snd.value.next == s.Border(|net.logR|);
  }

  lemma InnerPacketInv(s: Session, net: Net, clock: real)
    requires s.Valid() && Transferring(s, net) && net.readR - 1 < net.snd.value.next
    requires net.readR < s.Border(|net.logR|) && net.readR < s.Total()
    ensures Transferring(s, AfterPacket(s, net, net.readR - 1, clock))
  {
  }

  lemma ReadPacket(s: Session, net: Net, clock: real)
    requires s.Valid() && Transferring(s, net)
    requires WellFormed(net) && Enabled(net, ToReceiver(clock))
    ensures Inv(s, Step(s, net, ToReceiver(clock)))
  {
    PacketStep(s, net, clock);
    if net.readR == s.Total() { LastPacketInv(s, net, clock); }
    else if net.readR == s.Border(|net.logR|) { BorderPacketInv(s, net, clock); }
    else { InnerPacketInv(s, net, clock); }
  }

  lemma ReadStatus(s: Session, net: Net, clock: real)
    requires s.Valid() && Collected(s, net)
    requires WellFormed(net) && Enabled(net, ToReceiver(clock))
    ensures Delivering(s, Step(s, net, ToReceiver(clock)))
  {
    hide Receive, EomStatusFrame, EomAckFrame;
    GatheredAll(s);
    StatusArrives(s, net.rcv.value, clock);
    var got := RcvResult(None, [s.Ack()], [s.Delivered()], FreeRts(s.number), None);
    Reception(s, net, clock, s.Status(), got);
  }

  /** The net once CTS number `net.readS` has arrived. */
  function AfterGrant(s: Session, net: Net, clock: real): Net
    requires net.snd.Some? && net.readS >= 0
  {
    net.(readS := net.readS + 1,
         snd := Some(net.snd.value.(next := s.Border(net.readS), waitOn := s.Border(net.readS + 1) - 1,
                                    state := SendingRtsCts, deadline := clock)))
  }

  lemma GrantInv(s: Session, net: Net, clock: real)
    requires s.Valid() && Transferring(s, net) && net.readS == |net.logR| - 1 && clock > 0.0
    ensures Transferring(s, AfterGrant(s, net, clock))
  {
  }

  lemma GrantWaiting(s: Session, net: Net)
    requires s.Valid() && Transferring(s, net) && net.readS < |net.logR|
    ensures 0 <= net.readS == |net.logR| - 1 && net.logR[net.readS] == s.Cts(net.readS)
    ensures s.Border(net.readS) < s.Total() && net.snd.Some? && net.snd.value.num == s.Total()
  {
    GrantAt(s, |net.logR|, |net.logR| - 1);
  }

  lemma GrantStep(s: Session, net: Net, clock: real)
    requires s.Valid() && WellFormed(net) && Enabled(net, ToSender(clock))
    requires net.logR[net.readS] == s.Cts(net.readS) && s.Border(net.readS) < s.Total()
    requires net.snd.Some? && net.snd.value.num == s.Total()
    ensures Step(s, net, ToSender(clock)) == AfterGrant(s, net, clock)
  {
    hide Answer, CtsFrame;
    var c, b := net.readS, net.snd.value;
    GrantArrives(s, b, c, clock);
    var got := SndResult(Some(b.(next := s.Border(c), waitOn := s.Border(c + 1) - 1, state := SendingRtsCts,
                                 deadline := clock)), [], [], Keep);
    GrantOutcome(s, net, s.Cts(c), got, clock);
  }

  lemma GrantOutcome(s: Session, net: Net, f: Frame, got: SndResult, clock: real)
    requires WellFormed(net) && Enabled(net, ToSender(clock)) && net.snd.Some?
    requires f == net.logR[net.readS] && got == Answer(s.sender, net.snd, f, clock)
    requires got == SndResult(AfterGrant(s, net, clock).snd, [], [], Keep)
    ensures Step(s, net, ToSender(clock)) == AfterGrant(s, net, clock)
  {
    Reply(s, net, clock, f, got);
    assert net.logS + [] == net.logS && net.notified + [] == net.notified;
  }

  lemma ReadGrant(s: Session, net: Net, clock: real)
    requires s.Valid() && Transferring(s, net)
    requires WellFormed(net) && Enabled(net, ToSender(clock))
    ensures Transferring(s, Step(s, net, ToSender(clock)))
  {
    GrantWaiting(s, net);
    GrantStep(s, net, clock);
    GrantInv(s, net, clock);
  }

  lemma ReadAck(s: Session, net: Net, clock: real)
    requires s.Valid() && Delivering(s, net)
    requires WellFormed(net) && Enabled(net, ToSender(clock))
    ensures Delivering(s, Step(s, net, ToSender(clock)))
  {
    hide Answer, EomAckFrame;
    AckArrives(s, net.snd.value, clock);
    assert net.logR[net.readS] == s.Ack();
    assert net.logS + [] == net.logS;
  }

  /** The sender's buffer `b` is the one of this transfer, `b.next` segments sent. */
  ghost predicate SendingBuf(s: Session, b: SndBuf) {
    && b.pgn == s.Pgn() && b.session == s.number && b.size == |s.payload| && b.num == s.Total() == |b.data|
    && b.src == s.a && b.dst == s.b && b.deadline > 0.0 && 0 <= b.next
    && (forall i :: b.next <= i < b.num ==> b.data[i] == Chunk(s.payload, i))
  }

  lemma SegmentSent(s: Session, b: SndBuf)
    requires s.Valid() && SndWf(b) && SendingBuf(s, b) && b.next < b.num && b.state.SendingRtsCts?
    ensures var (frame, b1) := SendSegment(b);
            frame == s.Dt(b.next) && SndWf(b1) && SendingBuf(s, b1) && b1.state == b.state && b1.waitOn == b.waitOn
            && b1.next == b.next + 1
  {
  }

  /** What a burst starting at buffer `b` leaves behind: buffer `b2` and the frames sent. */
  ghost predicate BurstDone(s: Session, b: SndBuf, b2: SndBuf, frames: seq<Frame>) {
    && SendingBuf(s, b2) && b2.waitOn == b.waitOn
    && 0 <= b.next < b2.next <= b.waitOn + 1
    && s.FullLog(b2.next) == s.SentLog(b.next) + frames
    && b2.state == (if b2.next == b.num then WaitingEomAck
                    else if b2.next == b.waitOn + 1 then WaitingCts else SendingRtsCts)
  }

  /** A burst sends consecutive segments, never past the granted window, and the status after the last one. */
  lemma {:induction false} BurstSends(s: Session, b: SndBuf, clock: real)
    requires s.Valid() && SndWf(b) && SendingBuf(s, b) && clock > 0.0
    requires b.next <= b.waitOn < b.num && b.state.SendingRtsCts?
    ensures var (b2, frames) := Burst(s.sender, b, clock); BurstDone(s, b, b2, frames)
    decreases b.num - b.next
  {
    hide CtsFrame, DtFrame, RtsFrame, EomAckFrame, EomStatusFrame;
    SegmentSent(s, b);
    var (frame, b1) := SendSegment(b);
    if b1.next < b.num && b.next != b.waitOn && s.sender.rtsInterval.None? {
      BurstSends(s, b1, clock);
      var (b2, frames) := Burst(s.sender, b1, clock);
      BurstCons(s, b, b1, b2, frames);
      assert Burst(s.sender, b, clock) == (b2, [frame] + frames);
    } else if b1.next == b.num {
      var status := EomStatusFrame(b.src, b.dst, b.session, b.size, b.num, b.pgn);
      Associate(s.SentLog(b.next), [frame], [status]);
    }
  }

  lemma BurstCons(s: Session, b: SndBuf, b1: SndBuf, b2: SndBuf, frames: seq<Frame>)
    requires 0 <= b.next && b1.next == b.next + 1 && b1.waitOn == b.waitOn && b1.num == b.num
    requires BurstDone(s, b1, b2, frames)
    ensures BurstDone(s, b, b2, [s.Dt(b.next)] + frames)
  {
    Associate(s.SentLog(b.next), [s.Dt(b.next)], frames);
  }

  lemma BurstSenderAt(s: Session, net: Net, after: Net, b2: SndBuf, frames: seq<Frame>, border: int)
    requires net.snd.Some? && var b := net.snd.value; SenderAt(s, net, b.next, border) && b.next < border <= s.Total()
    requires BurstDone(s, net.snd.value, b2, frames)
    requires after == net.(snd := Some(b2), logS := net.logS + frames)
    ensures SenderAt(s, after, b2.next, border)
  {
  }

  lemma ReceiverUntouched(s: Session, net: Net, after: Net)
    requires ReceiverAt(s, net)
    requires after == net.(snd := after.snd, logS := after.logS)
    ensures ReceiverAt(s, after)
  {
  }

  lemma BurstInv(s: Session, net: Net, after: Net, b2: SndBuf, frames: seq<Frame>)
    requires s.Valid() && Transferring(s, net) && net.snd.value.state.SendingRtsCts?
    requires BurstDone(s, net.snd.value, b2, frames)
    requires after == net.(snd := Some(b2), logS := net.logS + frames)
    ensures Transferring(s, after)
  {
    BurstSenderAt(s, net, after, b2, frames, s.Border(|net.logR|));
    ReceiverUntouched(s, net, after);
  }

  lemma SendPackets(s: Session, net: Net, now: real, clock: real)
    requires s.Valid() && Transferring(s, net)
    requires WellFormed(net) && Enabled(net, SenderJob(now, clock))
    ensures Transferring(s, Step(s, net, SenderJob(now, clock)))
  {
    var b := net.snd.value;
    var after := Step(s, net, SenderJob(now, clock));
    if b.state.SendingRtsCts? && b.deadline != 0.0 && b.deadline <= now {
      BurstSends(s, b, clock);
      var (b2, frames) := Burst(s.sender, b, clock);
      BurstInv(s, net, after, b2, frames);
    } else {
      assert after.logS == net.logS;
    }
  }

  /** Any step without a timeout keeps the coupling between the two peers. */
  lemma StepInv(s: Session, net: Net, x: Action)
    requires s.Valid() && Inv(s, net) && WellFormed(net) && Enabled(net, x)
    ensures Inv(s, Step(s, net, x))
  {
    match x {
      case ToReceiver(clock) => ReceiverInv(s, net, clock);
      case ToSender(clock) => SenderInv(s, net, clock);
      case SenderJob(now, clock) => JobInv(s, net, now, clock);
      case ReceiverJob(now) =>
        assert Step(s, net, x).logR == net.logR;
        assert Step(s, net, x) == net;
    }
  }

  lemma ReceiverInv(s: Session, net: Net, clock: real)
    requires s.Valid() && Inv(s, net) && WellFormed(net) && Enabled(net, ToReceiver(clock))
    ensures Inv(s, Step(s, net, ToReceiver(clock)))
  {
    if Announcing(s, net) { ReadAnnouncement(s, net, clock); }
    else if Transferring(s, net) { ReadPacket(s, net, clock); }
    else if Collected(s, net) { ReadStatus(s, net, clock); }
  }

  lemma SenderInv(s: Session, net: Net, clock: real)
    requires s.Valid() && Inv(s, net) && WellFormed(net) && Enabled(net, ToSender(clock))
    ensures Inv(s, Step(s, net, ToSender(clock)))
  {
    if Transferring(s, net) { ReadGrant(s, net, clock); }
    else if Delivering(s, net) { ReadAck(s, net, clock); }
  }

  lemma JobInv(s: Session, net: Net, now: real, clock: real)
    requires s.Valid() && Inv(s, net) && WellFormed(net) && Enabled(net, SenderJob(now, clock))
    ensures Inv(s, Step(s, net, SenderJob(now, clock)))
  {
    if Transferring(s, net) { SendPackets(s, net, now, clock); }
    else { assert Step(s, net, SenderJob(now, clock)).logS == net.logS; }
  }

  // ---- whole runs ----

  /** `xs` can be run from `net` without a timeout running out. */
  ghost predicate Runs(s: Session, net: Net, xs: seq<Action>)
    requires s.Valid() && Inv(s, net)
    decreases |xs|
  {
    InvWellFormed(s, net);
    xs == [] || (Enabled(net, xs[0]) && (StepInv(s, net, xs[0]); Runs(s, Step(s, net, xs[0]), xs[1..])))
  }

  ghost function Final(s: Session, net: Net, xs: seq<Action>): (after: Net)
    requires s.Valid() && Inv(s, net) && Runs(s, net, xs)
    decreases |xs|
  {
    InvWellFormed(s, net);
    if xs == [] then net else (StepInv(s, net, xs[0]); Final(s, Step(s, net, xs[0]), xs[1..]))
  }

  lemma {:induction false} RunInv(s: Session, net: Net, xs: seq<Action>)
    requires s.Valid() && Inv(s, net) && Runs(s, net, xs)
    ensures Inv(s, Final(s, net, xs))
    decreases |xs|
  {
    if xs != [] {
      InvWellFormed(s, net);
      StepInv(s, net, xs[0]);
      RunInv(s, Step(s, net, xs[0]), xs[1..]);
    }
  }

  /** Number of CTS frames of a whole transfer. */
  function Windows(s: Session): int
    requires s.Window() > 0
  {
    W.Count(s.Window(), s.Total())
  }

  // ---- main results ----

  /** Nothing or exactly the payload has been delivered; all of it once the sender is done. */
  ghost predicate Exact(s: Session, net: Net)
    requires s.Window() > 0
  {
    && (net.delivered == [] || net.delivered == [s.Delivered()])
    && (net.snd.None? ==>
          && net.delivered == [s.Delivered()] && net.rcv.None?
          && net.logS == s.SentLog(s.Total()) + [s.Status()]
          && net.logR == s.GrantLog(Windows(s)) + [s.Ack()]
          && net.readR == |net.logS| && net.readS == |net.logR|)
  }

  lemma InvExact(s: Session, net: Net)
    requires s.Valid() && Inv(s, net)
    ensures s.Window() > 0 && Exact(s, net)
  {
    TotalBounds(s);
    if net.snd.None? { W.WindowCount(s.Window(), s.Total(), |net.logR| - 1); }
  }

  /**
   Safety over every run without a timeout: subscribers see nothing or exactly the
   payload once, padding never included; a finished transfer used n segments, one
   end-of-message status, ceil(n/window) CTS frames and one acknowledgement.
   */
  lemma DirectedTransferIsExact(s: Session, clock: real, xs: seq<Action>)
    requires s.Valid() && clock > 0.0 && Runs(s, Init(s, clock), xs)
    ensures s.Window() > 0 && Exact(s, Final(s, Init(s, clock), xs))
  {
    RunInv(s, Init(s, clock), xs);
    InvExact(s, Final(s, Init(s, clock), xs));
  }

  /** CTS frames sent so far. */
  function Grants(net: Net): int { if net.delivered == [] then |net.logR| else |net.logR| - 1 }

  /** Segments sent so far, announcement and status not counted. */
  function SegmentsSent(s: Session, net: Net): int { Min(|net.logS| - 1, s.Total()) }

  /** Received <= sent <= granted <= total, and every CTS grants between one segment and a full window. */
  ghost predicate CreditRespected(s: Session, net: Net) {
    && 0 <= Grants(net) <= |net.logR|
    && Min(net.readR - 1, s.Total()) <= SegmentsSent(s, net) <= s.Border(Grants(net)) <= s.Total()
    && (forall i :: 0 <= i < Grants(net) ==>
          net.logR[i] == s.Cts(i) && 1 <= Min(s.Window(), s.Total() - s.Granted(i)) <= s.Window())
  }

  lemma GrantBound(s: Session, c: nat, i: nat)
    requires s.Valid() && i < c && s.Granted(c - 1) < s.Total()
    ensures s.GrantLog(c)[i] == s.Cts(i) && 1 <= Min(s.Window(), s.Total() - s.Granted(i)) <= s.Window()
  {
    TotalBounds(s);
    GrantAt(s, c, i);
    W.GrantedMonotone(s.Window(), i, c - 1);
  }

  /** The logs of grants and segments agree with each other. */
  ghost predicate GrantsMatch(s: Session, net: Net) {
    var c := Grants(net);
    && 0 <= c <= |net.logR| && net.logR[..c] == s.GrantLog(c)
    && (c > 0 ==> s.Granted(c - 1) < s.Total())
    && Min(net.readR - 1, s.Total()) <= SegmentsSent(s, net) <= s.Border(c) <= s.Total()
  }

  lemma GrantsBefore(s: Session, net: Net)
    requires s.Valid() && Announcing(s, net)
    ensures GrantsMatch(s, net)
  {
    TotalBounds(s);
  }

  lemma GrantsDuring(s: Session, net: Net)
    requires s.Valid() && Transferring(s, net)
    ensures GrantsMatch(s, net)
  {
    hide CtsFrame, DtFrame, RtsFrame, EomAckFrame, EomStatusFrame;
    TotalBounds(s);
    assert net.logR[..|net.logR|] == net.logR;
    var k, c := net.snd.value.next, |net.logR|;
    assert net.logS == s.FullLog(k) && 0 <= k <= s.Border(c);
    assert SegmentsSent(s, net) == k;
  }

  lemma GrantsAfter(s: Session, net: Net)
    requires s.Valid() && (Collected(s, net) || Delivering(s, net))
    ensures GrantsMatch(s, net)
  {
    hide CtsFrame, DtFrame, RtsFrame, EomAckFrame, EomStatusFrame;
    TotalBounds(s);
    var c := Grants(net);
    assert net.logR[..c] == s.GrantLog(c);
  }

  lemma InvCredit(s: Session, net: Net)
    requires s.Valid() && Inv(s, net)
    ensures CreditRespected(s, net)
  {
    if Announcing(s, net) { GrantsBefore(s, net); }
    else if Transferring(s, net) { GrantsDuring(s, net); }
    else { GrantsAfter(s, net); }
    GrantsMatchCredit(s, net);
  }

  lemma GrantsMatchCredit(s: Session, net: Net)
    requires s.Valid() && GrantsMatch(s, net)
    ensures CreditRespected(s, net)
  {
    var c := Grants(net);
    forall i | 0 <= i < c
      ensures net.logR[i] == s.Cts(i) && 1 <= Min(s.Window(), s.Total() - s.Granted(i)) <= s.Window()
    {
      GrantBound(s, c, i);
      assert net.logR[i] == net.logR[..c][i];
    }
  }

  /** Flow control over every run without a timeout. */
  lemma CreditWindow(s: Session, clock: real, xs: seq<Action>)
    requires s.Valid() && clock > 0.0 && Runs(s, Init(s, clock), xs)
    ensures CreditRespected(s, Final(s, Init(s, clock), xs))
  {
    RunInv(s, Init(s, clock), xs);
    InvCredit(s, Final(s, Init(s, clock), xs));
  }

  /** What is left to do; every productive step lowers it. */
  function Remaining(s: Session, net: Net): int
    requires s.Window() > 0
  {
    2 * (s.Total() + 2 - |net.logS|) + (|net.logS| - net.readR)
    + 3 * (Windows(s) + 1 - |net.logR|) + 2 * (|net.logR| - net.readS)
    + (if net.snd.Some? && (net.snd.value.state.SendingRtsCts? || net.snd.value.state.EomAckReceived?) then 1 else 0)
  }

  /** A frame is read, or the sender's job finds something due. */
  predicate Productive(net: Net, x: Action) {
    match x
    case ToReceiver(_) => true
    case ToSender(_) => true
    case SenderJob(now, _) =>
      net.snd.Some? && (net.snd.value.state.SendingRtsCts? || net.snd.value.state.EomAckReceived?)
      && net.snd.value.deadline <= now
    case ReceiverJob(_) => false
  }

  lemma RemainingBounded(s: Session, net: Net)
    requires s.Valid() && Inv(s, net)
    ensures s.Window() > 0 && 0 <= Remaining(s, net)
  {
    hide CtsFrame, DtFrame, RtsFrame, EomAckFrame, EomStatusFrame;
    TotalBounds(s);
    if Transferring(s, net) || Collected(s, net) { W.WindowCount(s.Window(), s.Total(), |net.logR|); }
    else if Delivering(s, net) { W.WindowCount(s.Window(), s.Total(), |net.logR| - 1); }
    else { CeilDiv(s.Total(), s.Window(), 1); }
  }

  lemma ReceptionProgress(s: Session, net: Net, clock: real)
    requires s.Valid() && Inv(s, net) && WellFormed(net) && Enabled(net, ToReceiver(clock)) && s.Window() > 0
    ensures Remaining(s, Step(s, net, ToReceiver(clock))) < Remaining(s, net)
  {
    if Announcing(s, net) { ReadAnnouncement(s, net, clock); }
    else if Transferring(s, net) { PacketStep(s, net, clock); }
    else if Collected(s, net) { ReadStatus(s, net, clock); }
  }

  lemma AnswerProgress(s: Session, net: Net, clock: real)
    requires s.Valid() && Inv(s, net) && WellFormed(net) && Enabled(net, ToSender(clock)) && s.Window() > 0
    ensures Remaining(s, Step(s, net, ToSender(clock))) < Remaining(s, net)
  {
    if Transferring(s, net) {
      GrantWaiting(s, net);
      GrantStep(s, net, clock);
    } else { ReadAck(s, net, clock); }
  }

  lemma BurstLowers(s: Session, net: Net, after: Net, b2: SndBuf, frames: seq<Frame>)
    requires s.Window() > 0 && net.snd.Some? && net.snd.value.state.SendingRtsCts?
    requires net.snd.value.next >= 0 && net.logS == s.SentLog(net.snd.value.next)
              && BurstDone(s, net.snd.value, b2, frames)
    requires after == net.(snd := Some(b2), logS := net.logS + frames)
    ensures Remaining(s, after) < Remaining(s, net)
  {
    assert |after.logS| > |net.logS|;
  }

  lemma JobProgress(s: Session, net: Net, now: real, clock: real)
    requires s.Valid() && Inv(s, net) && WellFormed(net) && Enabled(net, SenderJob(now, clock)) && s.Window() > 0
    ensures var after := Step(s, net, SenderJob(now, clock));
            if Productive(net, SenderJob(now, clock)) then Remaining(s, after) < Remaining(s, net) else after == net
  {
    var after := Step(s, net, SenderJob(now, clock));
    if Transferring(s, net) && Productive(net, SenderJob(now, clock)) {
      BurstSends(s, net.snd.value, clock);
      var (b2, frames) := Burst(s.sender, net.snd.value, clock);
      BurstLowers(s, net, after, b2, frames);
    } else {
      assert after.logS == net.logS;
    }
  }

  /** Productive steps lower the remaining work, all others change nothing. */
  lemma StepsProgress(s: Session, net: Net, x: Action)
    requires s.Valid() && Inv(s, net) && WellFormed(net) && Enabled(net, x)
    ensures s.Window() > 0 && 0 <= Remaining(s, net)
    ensures Productive(net, x) ==> Remaining(s, Step(s, net, x)) < Remaining(s, net)
    ensures !Productive(net, x) ==> Step(s, net, x) == net
  {
    RemainingBounded(s, net);
    match x {
      case ToReceiver(clock) => ReceptionProgress(s, net, clock);
      case ToSender(clock) => AnswerProgress(s, net, clock);
      case SenderJob(now, clock) => JobProgress(s, net, now, clock);
      case ReceiverJob(now) => IdleReceiver(s, net, now);
    }
  }

  lemma IdleReceiver(s: Session, net: Net, now: real)
    requires WellFormed(net) && Enabled(net, ReceiverJob(now))
    ensures Step(s, net, ReceiverJob(now)) == net
  {
    assert net.logR + [] == net.logR;
  }

  /** Until the sender has let go of its buffer some productive step is possible: no deadlock. */
  lemma NeverStuck(s: Session, net: Net) returns (x: Action)
    requires s.Valid() && Inv(s, net) && net.snd.Some?
    ensures Enabled(net, x) && Productive(net, x)
  {
    TotalBounds(s);
    if net.readR < |net.logS| { x := ToReceiver(1.0); }
    else if net.readS < |net.logR| { x := ToSender(1.0); }
    else { x := SenderJob(net.snd.value.deadline, 1.0); }
  }

  /** Number of productive steps of a run. */
  ghost function ProductiveSteps(s: Session, net: Net, xs: seq<Action>): nat
    requires s.Valid() && Inv(s, net) && Runs(s, net, xs)
    decreases |xs|
  {
    InvWellFormed(s, net);
    if xs == [] then 0
    else
      StepInv(s, net, xs[0]);
      (if Productive(net, xs[0]) then 1 else 0) + ProductiveSteps(s, Step(s, net, xs[0]), xs[1..])
  }

  /** Every run has boundedly many productive steps, so with `NeverStuck` every fair run completes. */
  lemma {:induction false} RunsTerminate(s: Session, net: Net, xs: seq<Action>)
    requires s.Valid() && Inv(s, net) && Runs(s, net, xs)
    ensures s.Window() > 0 && ProductiveSteps(s, net, xs) <= Remaining(s, net)
    decreases |xs|
  {
    RemainingBounded(s, net);
    if xs != [] {
      InvWellFormed(s, net);
      StepInv(s, net, xs[0]);
      StepsProgress(s, net, xs[0]);
      RunsTerminate(s, Step(s, net, xs[0]), xs[1..]);
    }
  }
}
