/**
 One directed J1939-21 transfer end to end: a sender and a receiver buffer
 joined by two lossless first-in first-out channels, run by any interleaving of
 frame receptions and job passes in which no timeout expires.
 */
module Session21 {
  import opened Common
  import W = Windows
  import opened Wire
  import opened Transport21

  /** The two peers and the message; `pgn` still carries the destination in its low byte. */
  datatype Session = Session(
    sender: Config, receiver: Config, a: int, b: int, priority: int, pgn: int, payload: seq<int>)
  {
    /** What the documentation promises the transfer for. */
    ghost predicate Valid() {
      && sender.Valid() && receiver.Valid()
      && IsByte(a) && IsByte(b) && b != GLOBAL
      && 0 <= pgn < 0x2_0000
      && 9 <= |payload| <= 1785
    }

    function Total(): int { Packets(|payload|) }

    /** The window both peers end up using. */
    function Window(): int { Min(sender.maxCmdt, Min(receiver.maxCmdt, Total())) }

    function Pgn(): int { pgn - pgn % 0x100 }

    /** The size of `c` full windows. */
    function Granted(c: nat): int { W.Granted(Window(), c) }

    /** Packets granted by the first `c` CTS frames. */
    function Border(c: nat): int { W.Border(Window(), Total(), c) }

    function Rts(): Frame {
      RtsFrame(a, b, priority, Pgn(), |payload|, Total(), Min(sender.maxCmdt, Total()))
    }

    function Dt(i: nat): Frame { DtFrame(a, b, payload, i) }

    /** CTS number `i` opens the window after the first `i` ones. */
    function Cts(i: nat): Frame {
      CtsFrame(b, a, Min(Window(), Total() - Granted(i)), Granted(i) + 1, Pgn())
    }

    function Ack(): Frame { EomAckFrame(b, a, |payload|, Total(), Pgn()) }

    /** The announcement followed by the first `k` data packets. */
    function SentLog(k: nat): (l: seq<Frame>)
      ensures |l| == k + 1
    {
      if k == 0 then [Rts()] else SentLog(k - 1) + [Dt(k - 1)]
    }

    function GrantLog(c: nat): (l: seq<Frame>)
      ensures |l| == c
    {
      if c == 0 then [] else GrantLog(c - 1) + [Cts(c - 1)]
    }

    function Delivered(): Delivery { ToSubscribers(7, Pgn(), a, b, payload) }
  }

  /**
   Both buffers and both directions of the bus. `logS` and `logR` hold every
   frame sent so far, `readR` and `readS` how many of them the peer has processed.
   */
  datatype Net = Net(
    snd: Option<SndBuf>, rcv: Option<RcvBuf>,
    logS: seq<Frame>, readR: int, logR: seq<Frame>, readS: int,
    delivered: seq<Delivery>, notified: seq<Delivery>)

  datatype Action =
    | ToReceiver(clock: real)
    | ToSender(clock: real)
    | SenderJob(now: real, clock: real)
    | ReceiverJob(now: real)

  function Init(s: Session, clock: real): (net: Net)
    ensures WellFormed(net)
  {
    var (frame, buf) := Start(s.sender, s.payload, s.b, s.a, s.priority, s.pgn, s.b, clock);
    Net(Some(buf), None, [frame], 0, [], 0, [], [])
  }

  ghost predicate WellFormed(net: Net) {
    && 0 <= net.readR <= |net.logS| && 0 <= net.readS <= |net.logR|
    && (net.snd.Some? ==> SndWf(net.snd.value))
  }

  /** The action can happen and no timeout runs out in it. */
  predicate Enabled(net: Net, x: Action) {
    match x
    case ToReceiver(clock) => clock > 0.0 && net.readR < |net.logS|
    case ToSender(clock) => clock > 0.0 && net.readS < |net.logR|
    case SenderJob(now, clock) => clock > 0.0 && net.snd.Some?
        && (net.snd.value.state.WaitingCts? ==> now < net.snd.value.deadline)
    case ReceiverJob(now) => net.rcv.Some? ==> now < net.rcv.value.deadline
  }

  function Step(s: Session, net: Net, x: Action): Net
    requires WellFormed(net) && Enabled(net, x)
  {
    match x
    case ToReceiver(clock) =>
      var r := Receive(s.receiver, net.rcv, net.logS[net.readR], clock);
      net.(rcv := r.buf, readR := net.readR + 1, logR := net.logR + r.sent, delivered := net.delivered + r.out)
    case ToSender(clock) =>
      var r := Answer(net.snd, net.logR[net.readS], clock);
      net.(snd := r.buf, readS := net.readS + 1, logS := net.logS + r.sent, notified := net.notified + r.out)
    case SenderJob(now, clock) =>
      var (buf, frames) := SndJob(s.sender, net.snd.value, now, clock);
      net.(snd := buf, logS := net.logS + frames)
    case ReceiverJob(now) =>
      var (buf, frames) := RcvJob(net.rcv, now);
      net.(rcv := buf, logR := net.logR + frames)
  }

  // ---- the coupling invariant ----

  ghost predicate SndIs(s: Session, net: Net, next: int) {
    net.snd.Some? && var b := net.snd.value;
    && b.pgn == s.Pgn() && b.size == |s.payload| && b.num == s.Total() && b.data == s.payload
    && b.src == s.a && b.dst == s.b && b.next == next && b.deadline > 0.0
  }

  ghost predicate RcvIs(s: Session, net: Net, r: int, border: int)
    requires 0 <= r
  {
    net.rcv.Some? && var b := net.rcv.value;
    && b.pgn == s.Pgn() && b.size == |s.payload| && b.num == s.Total() && b.src == s.a && b.dst == s.b
    && b.expected == r + 1 && b.border == border && b.maxRec == Some(s.Window()) && b.data == Gathered(s.payload, r)
  }

  /** Before the receiver has seen the announcement. */
  ghost predicate Announcing(s: Session, net: Net) {
    && net.readR == 0 && net.logS == [s.Rts()] && net.logR == [] && net.readS == 0
    && net.rcv.None? && net.delivered == []
    && SndIs(s, net, 0) && net.snd.value.state.WaitingCts?
  }

  /** `r` of the `k` packets sent have arrived, `c` windows have been granted. */
  ghost predicate Transferring(s: Session, net: Net) {
    var k, r, c := |net.logS| - 1, net.readR - 1, |net.logR|;
    && 0 <= r <= k && 1 <= c
    && net.logS == s.SentLog(k) && net.logR == s.GrantLog(c)
    && s.Border(c - 1) <= r < s.Border(c)
    && RcvIs(s, net, r, s.Border(c)) && net.delivered == []
    && SndIs(s, net, k)
    && (|| (net.readS == c - 1 && k == s.Border(c - 1) && net.snd.value.state.WaitingCts?)
        || (net.readS == c && k < s.Border(c) && net.snd.value.state.SendingInCts?
            && net.snd.value.waitOn == s.Border(c) - 1)
        || (net.readS == c && k == s.Border(c) && net.snd.value.state.WaitingCts?))
  }

  /** Everything has been delivered; the acknowledgement is on its way or processed. */
  ghost predicate Delivering(s: Session, net: Net) {
    var c := |net.logR| - 1;
    && 1 <= c && s.Border(c - 1) < s.Total() == s.Border(c)
    && net.readR == s.Total() + 1 && net.logS == s.SentLog(s.Total())
    && net.logR == s.GrantLog(c) + [s.Ack()]
    && net.rcv.None? && net.delivered == [s.Delivered()]
    && (|| (net.readS == c && SndIs(s, net, s.Total()) && net.snd.value.state.WaitingCts?)
        || (net.readS == c + 1 && (net.snd.None? ||
              (SndIs(s, net, s.Total()) && net.snd.value.state.TransmissionFinished?))))
  }

  ghost predicate Inv(s: Session, net: Net) {
    Announcing(s, net) || Transferring(s, net) || Delivering(s, net)
  }

  // ---- helper facts ----

  lemma TotalBounds(s: Session)
    requires s.Valid()
    ensures 2 <= s.Total() <= 255
    ensures 7 * (s.Total() - 1) < |s.payload| <= 7 * s.Total()
    ensures 1 <= s.Window() <= s.Total() && s.Window() <= 255
  {
  }

  lemma DtRoutes(s: Session, buf: Option<RcvBuf>, i: nat, clock: real)
    requires s.Valid()
    ensures Receive(s.receiver, buf, s.Dt(i), clock) == OnDt(buf, 7, s.a, s.b, s.Dt(i).data, clock)
  {
    assert |s.Dt(i).data| == 8;
  }

  /** Frame `i + 1` of the sender's log is packet `i`. */
  lemma {:induction false} SentAt(s: Session, k: nat, i: nat)
    requires i < k
    ensures s.SentLog(k)[i + 1] == s.Dt(i)
    decreases k
  {
    if i < k - 1 { SentAt(s, k - 1, i); }
  }

  lemma {:induction false} GrantAt(s: Session, c: nat, i: nat)
    requires i < c
    ensures s.GrantLog(c)[i] == s.Cts(i)
    decreases c
  {
    if i < c - 1 { GrantAt(s, c - 1, i); }
  }

  lemma NextBorder(s: Session, c: nat)
    requires s.Valid() && s.Border(c) < s.Total()
    ensures s.Border(c) == s.Granted(c)
    ensures s.Border(c + 1) == Min(s.Border(c) + s.Window(), s.Total()) > s.Border(c)
    ensures s.Border(c + 1) - s.Border(c) == Min(s.Window(), s.Total() - s.Granted(c))
  {
    TotalBounds(s);
    W.NextBorder(s.Window(), s.Total(), c);
  }

  lemma InvWellFormed(s: Session, net: Net)
    requires s.Valid() && Inv(s, net)
    ensures WellFormed(net)
  {
    TotalBounds(s);
  }

  // ---- every step keeps the invariant ----

  lemma InitInv(s: Session, clock: real)
    requires s.Valid() && clock > 0.0
    ensures Inv(s, Init(s, clock)) && WellFormed(Init(s, clock))
  {
  }

  lemma ReadAnnouncement(s: Session, net: Net, clock: real)
    requires s.Valid() && Announcing(s, net)
    requires WellFormed(net) && Enabled(net, ToReceiver(clock))
    ensures Transferring(s, Step(s, net, ToReceiver(clock)))
  {
    TotalBounds(s);
    CmFields(CM_RTS, |s.payload|, s.Total(), Min(s.sender.maxCmdt, s.Total()), s.Pgn());
    var after := Step(s, net, ToReceiver(clock));
    assert net.logS[0] == s.Rts();
    assert s.Border(0) == 0 && s.Border(1) == s.Window();
    assert after.logR == s.GrantLog(1);
    assert after.logS == s.SentLog(0);
    assert after.rcv.value.data == Gathered(s.payload, 0);
  }

  lemma GatheredWhole(s: Session)
    requires s.Valid()
    ensures Take(Gathered(s.payload, s.Total()), |s.payload|) == s.payload
  {
    TotalBounds(s);
  }

  /** What the receiver makes of packet `r + 1` when it expects it. */
  function PacketReaction(s: Session, b: RcvBuf, r: nat, border: int, clock: real): RcvResult {
    var more := b.(data := Gathered(s.payload, r + 1), expected := r + 2);
    if r + 1 == s.Total() then
      RcvResult(None, [s.Ack()], [s.Delivered()], None)
    else if r + 1 == border then
      RcvResult(Some(more.(border := Min(border + s.Window(), s.Total()), deadline := clock + T2)),
                [CtsFrame(s.b, s.a, Min(s.Window(), s.Total() - border), border + 1, s.Pgn())], [], None)
    else
      RcvResult(Some(more.(deadline := clock + T1)), [], [], None)
  }

  /** The next packet in order is appended; the last one completes the message. */
  lemma PacketResult(s: Session, b: RcvBuf, r: nat, border: int, clock: real)
    requires s.Valid() && r < border <= s.Total()
    requires b == RcvBuf(s.Pgn(), |s.payload|, s.Total(), r + 1, border, Some(s.Window()), Gathered(s.payload, r),
                         b.deadline, s.a, s.b)
    ensures OnDt(Some(b), 7, s.a, s.b, s.Dt(r).data, clock) == PacketReaction(s, b, r, border, clock)
  {
    TotalBounds(s);
    GatherNext(s.payload, r);
    var data := s.Dt(r).data;
    assert data[0] == r + 1 && data[1..] == Chunk(s.payload, r);
    GatheredWhole(s);
    assert s.Pgn() % 0x100 == 0;
    assert r + 1 == s.Total() <==> |Gathered(s.payload, r + 1)| >= |s.payload|;
  }

  /** The net after packet `r + 1` has been processed. */
  function AfterPacket(s: Session, net: Net, r: nat, clock: real): Net
    requires net.rcv.Some?
  {
    var border := s.Border(|net.logR|);
    var more := net.rcv.value.(data := Gathered(s.payload, r + 1), expected := r + 2);
    var read := net.(readR := net.readR + 1);
    if r + 1 == s.Total() then
      read.(rcv := None, logR := net.logR + [s.Ack()], delivered := [s.Delivered()])
    else if r + 1 == border then
      read.(rcv := Some(more.(border := Min(border + s.Window(), s.Total()), deadline := clock + T2)),
            logR := net.logR + [CtsFrame(s.b, s.a, Min(s.Window(), s.Total() - border), border + 1, s.Pgn())])
    else
      read.(rcv := Some(more.(deadline := clock + T1)))
  }

  lemma PacketStep(s: Session, net: Net, clock: real)
    requires s.Valid() && Transferring(s, net)
    requires WellFormed(net) && Enabled(net, ToReceiver(clock))
    ensures Step(s, net, ToReceiver(clock)) == AfterPacket(s, net, net.readR - 1, clock)
  {
    TotalBounds(s);
    var r := net.readR - 1;
    SentAt(s, |net.logS| - 1, r);
    DtRoutes(s, net.rcv, r, clock);
    PacketResult(s, net.rcv.value, r, s.Border(|net.logR|), clock);
    PacketOutcome(s, net, r, s.Dt(r), Receive(s.receiver, net.rcv, s.Dt(r), clock), clock);
  }

  /** A reception whose outcome is known. */
  lemma PacketOutcome(s: Session, net: Net, r: nat, f: Frame, got: RcvResult, clock: real)
    requires WellFormed(net) && Enabled(net, ToReceiver(clock)) && net.rcv.Some? && net.delivered == []
    requires f == net.logS[net.readR] && got == Receive(s.receiver, net.rcv, f, clock)
    requires got == PacketReaction(s, net.rcv.value, r, s.Border(|net.logR|), clock)
    ensures Step(s, net, ToReceiver(clock)) == AfterPacket(s, net, r, clock)
  {
    hide CtsFrame, DtFrame, RtsFrame, EomAckFrame;
    assert Step(s, net, ToReceiver(clock))
        == net.(rcv := got.buf, readR := net.readR + 1, logR := net.logR + got.sent,
            delivered := net.delivered + got.out);
    assert net.logR + [] == net.logR;
  }

  lemma LastPacketInv(s: Session, net: Net, clock: real)
    requires s.Valid() && Transferring(s, net) && net.readR < |net.logS| && net.readR == s.Total()
    ensures Delivering(s, AfterPacket(s, net, net.readR - 1, clock))
  {
    hide CtsFrame, DtFrame, RtsFrame, EomAckFrame;
  }

  /** The grant sent at the border is the next one of the log. */
  lemma NextCts(s: Session, c: nat)
    requires s.Border(c) == s.Granted(c)
    ensures s.Cts(c) == CtsFrame(s.b, s.a, Min(s.Window(), s.Total() - s.Border(c)), s.Border(c) + 1, s.Pgn())
  {
    hide CtsFrame;
    assert Min(s.Window(), s.Total() - s.Granted(c)) == Min(s.Window(), s.Total() - s.Border(c));
  }

  lemma BorderPacketInv(s: Session, net: Net, clock: real)
    requires s.Valid() && Transferring(s, net) && net.readR < |net.logS|
    requires net.readR == s.Border(|net.logR|) < s.Total()
    ensures Transferring(s, AfterPacket(s, net, net.readR - 1, clock))
  {
    hide CtsFrame, DtFrame, RtsFrame, EomAckFrame, W.Granted;
    TotalBounds(s);
    var c := |net.logR|;
    NextBorder(s, c);
    NextCts(s, c);
    var after := AfterPacket(s, net, net.readR - 1, clock);
    assert after.logR == s.GrantLog(c + 1);
    assert RcvIs(s, after, net.readR, s.Border(c + 1));
  }

  lemma InnerPacketInv(s: Session, net: Net, clock: real)
    requires s.Valid() && Transferring(s, net) && net.readR < |net.logS| && net.readR < s.Border(|net.logR|)
    ensures net.readR < s.Total() ==> Transferring(s, AfterPacket(s, net, net.readR - 1, clock))
  {
    hide CtsFrame, DtFrame, RtsFrame, EomAckFrame;
  }

  lemma ReadPacket(s: Session, net: Net, clock: real)
    requires s.Valid() && Transferring(s, net)
    requires WellFormed(net) && Enabled(net, ToReceiver(clock))
    ensures Inv(s, Step(s, net, ToReceiver(clock)))
  {
    PacketStep(s, net, clock);
    if net.readR == s.Total() { LastPacketInv(s, net, clock); }
    else if net.readR == s.Border(|net.logR|) { BorderPacketInv(s, net, clock); }
    else { InnerPacketInv(s, net, clock); }
  }

  /** The grant of window `c` at a sender that used up the windows before it. */
  lemma GrantArrives(s: Session, b: SndBuf, c: nat, clock: real)
    requires s.Valid() && s.Border(c) < s.Total() && b.num == s.Total() && b.next == s.Border(c)
    ensures Answer(Some(b), s.Cts(c), clock)
         == SndResult(Some(b.(waitOn := s.Border(c + 1) - 1, state := SendingInCts, deadline := clock)), [], [])
  {
    hide AbortFrame;
    TotalBounds(s);
    NextBorder(s, c);
  }

  lemma ReadGrant(s: Session, net: Net, clock: real)
    requires s.Valid() && Transferring(s, net)
    requires WellFormed(net) && Enabled(net, ToSender(clock))
    ensures Transferring(s, Step(s, net, ToSender(clock)))
  {
    hide Answer, W.Border;
    var c := |net.logR|;
    GrantBefore(s, c);
    GrantAt(s, c, c - 1);
    GrantArrives(s, net.snd.value, c - 1, clock);
    assert net.logS + [] == net.logS;
  }

  lemma GrantBefore(s: Session, c: nat)
    requires s.Valid() && c >= 1 && s.Border(c - 1) < s.Border(c)
    ensures s.Border(c - 1) < s.Total()
  {
    TotalBounds(s);
  }

  lemma ReadAck(s: Session, net: Net, clock: real)
    requires s.Valid() && Delivering(s, net)
    requires WellFormed(net) && Enabled(net, ToSender(clock))
    ensures Delivering(s, Step(s, net, ToSender(clock)))
  {
    var after := Step(s, net, ToSender(clock));
    assert net.logR[net.readS] == s.Ack();
    assert after.logS == net.logS;
  }

  /** A burst sends consecutive packets and never runs past the granted window. */
  lemma {:induction false} BurstSends(s: Session, b: SndBuf, clock: real)
    requires s.Valid() && SndWf(b) && b.data == s.payload && b.src == s.a && b.dst == s.b
    requires b.next <= b.waitOn < b.num && b.state.SendingInCts?
    requires clock > 0.0 && b.deadline > 0.0
    ensures var (b2, frames) := Burst(s.sender, b, clock);
            && b2.deadline > 0.0
            && b2 == b.(next := b2.next, state := b2.state, deadline := b2.deadline)
            && b.next < b2.next <= b.waitOn + 1 && |frames| == b2.next - b.next
            && s.SentLog(b2.next) == s.SentLog(b.next) + frames
            && b2.state == (if b2.next == b.waitOn + 1 then WaitingCts else SendingInCts)
            && (s.sender.rtsInterval.None? ==> b2.next == b.waitOn + 1)
    decreases b.num - b.next
  {
    if b.next != b.waitOn && s.sender.rtsInterval.None? {
      var b1 := b.(next := b.next + 1);
      BurstSends(s, b1, clock);
      var (b2, frames) := Burst(s.sender, b1, clock);
      assert Burst(s.sender, b, clock) == (b2, [s.Dt(b.next)] + frames);
      Associate(s.SentLog(b.next), [s.Dt(b.next)], frames);
    }
  }

  /** The net after a burst that reached packet `b2.next`. */
  lemma BurstInv(s: Session, net: Net, after: Net, b2: SndBuf, frames: seq<Frame>)
    requires s.Valid() && Transferring(s, net) && net.snd.value.state.SendingInCts?
    requires var b := net.snd.value;
             && b2 == b.(next := b2.next, state := b2.state, deadline := b2.deadline) && b2.deadline > 0.0
             && b.next < b2.next <= b.waitOn + 1 && s.SentLog(b2.next) == s.SentLog(b.next) + frames
             && b2.state == (if b2.next == b.waitOn + 1 then WaitingCts else SendingInCts)
    requires after == net.(snd := Some(b2), logS := net.logS + frames)
    ensures Transferring(s, after)
  {
    hide CtsFrame, DtFrame, RtsFrame, EomAckFrame;
  }

  lemma SendPackets(s: Session, net: Net, now: real, clock: real)
    requires s.Valid() && Transferring(s, net)
    requires WellFormed(net) && Enabled(net, SenderJob(now, clock))
    ensures Transferring(s, Step(s, net, SenderJob(now, clock)))
  {
    var b := net.snd.value;
    var after := Step(s, net, SenderJob(now, clock));
    if b.state.SendingInCts? && b.deadline != 0.0 && b.deadline <= now {
      BurstSends(s, b, clock);
      var (b2, frames) := Burst(s.sender, b, clock);
      BurstInv(s, net, after, b2, frames);
    } else {
      assert after.logS == net.logS;
    }
  }

  /** Any step without a timeout keeps the coupling between the two peers. */
  lemma StepInv(s: Session, net: Net, x: Action)
    requires s.Valid() && Inv(s, net) && WellFormed(net) && Enabled(net, x)
    ensures Inv(s, Step(s, net, x)) && WellFormed(Step(s, net, x))
  {
    match x {
      case ToReceiver(clock) => ReceiverInv(s, net, clock);
      case ToSender(clock) => SenderInv(s, net, clock);
      case SenderJob(now, clock) => JobInv(s, net, now, clock);
      case ReceiverJob(now) => IdleReceiver(s, net, now);
    }
    InvWellFormed(s, Step(s, net, x));
  }

  lemma ReceiverInv(s: Session, net: Net, clock: real)
    requires s.Valid() && Inv(s, net) && WellFormed(net) && Enabled(net, ToReceiver(clock))
    ensures Inv(s, Step(s, net, ToReceiver(clock)))
  {
    if Announcing(s, net) { ReadAnnouncement(s, net, clock); }
    else if Transferring(s, net) { ReadPacket(s, net, clock); }
  }

  lemma SenderInv(s: Session, net: Net, clock: real)
    requires s.Valid() && Inv(s, net) && WellFormed(net) && Enabled(net, ToSender(clock))
    ensures Inv(s, Step(s, net, ToSender(clock)))
  {
    if Transferring(s, net) { ReadGrant(s, net, clock); }
    else if Delivering(s, net) { ReadAck(s, net, clock); }
  }

  lemma JobInv(s: Session, net: Net, now: real, clock: real)
    requires s.Valid() && Inv(s, net) && WellFormed(net) && Enabled(net, SenderJob(now, clock))
    ensures Inv(s, Step(s, net, SenderJob(now, clock)))
  {
    if Transferring(s, net) { SendPackets(s, net, now, clock); }
    else { assert Step(s, net, SenderJob(now, clock)).logS == net.logS; }
  }

  lemma IdleReceiver(s: Session, net: Net, now: real)
    requires WellFormed(net) && Enabled(net, ReceiverJob(now))
    ensures Step(s, net, ReceiverJob(now)) == net
  {
    assert net.logR + [] == net.logR;
  }

  // ---- whole runs ----

  lemma StepWellFormed(s: Session, net: Net, x: Action)
    requires WellFormed(net) && Enabled(net, x)
    ensures WellFormed(Step(s, net, x))
  {
  }

  /** `xs` can be run from `net` without a timeout running out. */
  ghost predicate Runs(s: Session, net: Net, xs: seq<Action>)
    requires WellFormed(net)
    decreases |xs|
  {
    xs == [] || (Enabled(net, xs[0]) && (StepWellFormed(s, net, xs[0]); Runs(s, Step(s, net, xs[0]), xs[1..])))
  }

  ghost function Final(s: Session, net: Net, xs: seq<Action>): Net
    requires WellFormed(net) && Runs(s, net, xs)
    decreases |xs|
  {
    if xs == [] then net else (StepWellFormed(s, net, xs[0]); Final(s, Step(s, net, xs[0]), xs[1..]))
  }

  lemma {:induction false} RunInv(s: Session, net: Net, xs: seq<Action>)
    requires s.Valid() && WellFormed(net) && Inv(s, net) && Runs(s, net, xs)
    ensures Inv(s, Final(s, net, xs)) && WellFormed(Final(s, net, xs))
    decreases |xs|
  {
    if xs != [] {
      StepInv(s, net, xs[0]);
      RunInv(s, Step(s, net, xs[0]), xs[1..]);
    }
  }

  /** Number of CTS frames of a whole transfer. */
  function Windows(s: Session): int
    requires s.Window() > 0
  {
    W.Count(s.Window(), s.Total())
  }

  // ---- main results ----

  /** Nothing or exactly the payload has been delivered; all of it once the sender is done. */
  ghost predicate Exact(s: Session, net: Net)
    requires s.Window() > 0
  {
    && (net.delivered == [] || net.delivered == [s.Delivered()])
    && (net.snd.None? ==>
          && net.delivered == [s.Delivered()] && net.rcv.None?
          && net.logS == s.SentLog(s.Total())
          && net.logR == s.GrantLog(Windows(s)) + [s.Ack()]
          && net.readR == |net.logS| && net.readS == |net.logR|)
  }

  lemma InvExact(s: Session, net: Net)
    requires s.Valid() && Inv(s, net)
    ensures s.Window() > 0 && Exact(s, net)
  {
    TotalBounds(s);
    if net.snd.None? { W.WindowCount(s.Window(), s.Total(), |net.logR| - 1); }
  }

  /**
   Safety over every run without a timeout: the receiver's subscribers have seen
   nothing or exactly the payload once, and once the sender has let go of its
   buffer the payload was delivered, with n data packets, ceil(n/window) CTS
   frames and one acknowledgement on the bus.
   */
  lemma DirectedTransferIsExact(s: Session, clock: real, xs: seq<Action>)
    requires s.Valid() && clock > 0.0 && Runs(s, Init(s, clock), xs)
    ensures s.Window() > 0 && Exact(s, Final(s, Init(s, clock), xs))
  {
    InitInv(s, clock);
    RunInv(s, Init(s, clock), xs);
    InvExact(s, Final(s, Init(s, clock), xs));
  }

  /** CTS frames sent so far. */
  function Grants(net: Net): int { if net.delivered == [] then |net.logR| else |net.logR| - 1 }

  /**
   Packets received <= packets sent <= packets granted <= packets of the message,
   and every CTS grants between one packet and a full window, starting where the
   previous grant ended.
   */
  ghost predicate CreditRespected(s: Session, net: Net) {
    && 0 <= Grants(net) <= |net.logR|
    && net.readR - 1 <= |net.logS| - 1 <= s.Border(Grants(net)) <= s.Total()
    && (forall i :: 0 <= i < Grants(net) ==>
          net.logR[i] == s.Cts(i) && 1 <= Min(s.Window(), s.Total() - s.Granted(i)) <= s.Window())
  }

  lemma GrantBound(s: Session, c: nat, i: nat)
    requires s.Valid() && i < c && s.Granted(c - 1) < s.Total()
    ensures s.GrantLog(c)[i] == s.Cts(i) && 1 <= Min(s.Window(), s.Total() - s.Granted(i)) <= s.Window()
  {
    TotalBounds(s);
    GrantAt(s, c, i);
    W.GrantedMonotone(s.Window(), i, c - 1);
  }

  lemma GrantsSoFar(s: Session, net: Net)
    requires s.Valid() && Inv(s, net)
    ensures 0 <= Grants(net) <= |net.logR| && net.logR[..Grants(net)] == s.GrantLog(Grants(net))
    ensures Grants(net) > 0 ==> s.Granted(Grants(net) - 1) < s.Total()
    ensures net.readR - 1 <= |net.logS| - 1 <= s.Border(Grants(net)) <= s.Total()
  {
    TotalBounds(s);
  }

  lemma InvCredit(s: Session, net: Net)
    requires s.Valid() && Inv(s, net)
    ensures CreditRespected(s, net)
  {
    GrantsSoFar(s, net);
    var c := Grants(net);
    forall i | 0 <= i < c
      ensures net.logR[i] == s.Cts(i) && 1 <= Min(s.Window(), s.Total() - s.Granted(i)) <= s.Window()
    {
      GrantBound(s, c, i);
      assert net.logR[i] == net.logR[..c][i];
    }
  }

  /** Flow control over every run without a timeout. */
  lemma CreditWindow(s: Session, clock: real, xs: seq<Action>)
    requires s.Valid() && clock > 0.0 && Runs(s, Init(s, clock), xs)
    ensures CreditRespected(s, Final(s, Init(s, clock), xs))
  {
    InitInv(s, clock);
    RunInv(s, Init(s, clock), xs);
    InvCredit(s, Final(s, Init(s, clock), xs));
  }

  /** What is left to do; every productive step lowers it. */
  function Remaining(s: Session, net: Net): int
    requires s.Window() > 0
  {
    2 * (s.Total() + 1 - |net.logS|) + (|net.logS| - net.readR)
    + 3 * (Windows(s) + 1 - |net.logR|) + 2 * (|net.logR| - net.readS)
    + (if net.snd.Some? && (net.snd.value.state.SendingInCts? || net.snd.value.state.TransmissionFinished?)
       then 1 else 0)
  }

  /** A frame is read, or the sender's job finds something due. */
  predicate Productive(net: Net, x: Action) {
    match x
    case ToReceiver(_) => true
    case ToSender(_) => true
    case SenderJob(now, _) =>
      net.snd.Some? && !net.snd.value.state.WaitingCts? && net.snd.value.deadline <= now
    case ReceiverJob(_) => false
  }

  /** Productive steps lower the remaining work, all others change nothing. */
  lemma StepsProgress(s: Session, net: Net, x: Action)
    requires s.Valid() && Inv(s, net) && WellFormed(net) && Enabled(net, x)
    ensures s.Window() > 0 && 0 <= Remaining(s, net)
    ensures Productive(net, x) ==> Remaining(s, Step(s, net, x)) < Remaining(s, net)
    ensures !Productive(net, x) ==> Step(s, net, x) == net
  {
    RemainingBounded(s, net);
    match x {
      case ToReceiver(clock) => ReceptionProgress(s, net, clock);
      case ToSender(clock) => AnswerProgress(s, net, clock);
      case SenderJob(now, clock) => JobProgress(s, net, now, clock);
      case ReceiverJob(now) => IdleReceiver(s, net, now);
    }
  }

  lemma RemainingBounded(s: Session, net: Net)
    requires s.Valid() && Inv(s, net)
    ensures s.Window() > 0 && 0 <= Remaining(s, net)
  {
    TotalBounds(s);
    if Transferring(s, net) { W.WindowCount(s.Window(), s.Total(), |net.logR|); }
    else if Delivering(s, net) { W.WindowCount(s.Window(), s.Total(), |net.logR| - 1); }
    else { CeilDiv(s.Total(), s.Window(), 1); }
  }

  lemma ReceptionProgress(s: Session, net: Net, clock: real)
    requires s.Valid() && Inv(s, net) && WellFormed(net) && Enabled(net, ToReceiver(clock)) && s.Window() > 0
    ensures Remaining(s, Step(s, net, ToReceiver(clock))) < Remaining(s, net)
  {
    if Announcing(s, net) { ReadAnnouncement(s, net, clock); }
    else { PacketStep(s, net, clock); }
  }

  lemma AnswerProgress(s: Session, net: Net, clock: real)
    requires s.Valid() && Inv(s, net) && WellFormed(net) && Enabled(net, ToSender(clock)) && s.Window() > 0
    ensures Remaining(s, Step(s, net, ToSender(clock))) < Remaining(s, net)
  {
    if Transferring(s, net) { ReadGrant(s, net, clock); } else { ReadAck(s, net, clock); }
  }

  lemma JobProgress(s: Session, net: Net, now: real, clock: real)
    requires s.Valid() && Inv(s, net) && WellFormed(net) && Enabled(net, SenderJob(now, clock)) && s.Window() > 0
    ensures var after := Step(s, net, SenderJob(now, clock));
            if Productive(net, SenderJob(now, clock)) then Remaining(s, after) < Remaining(s, net) else after == net
  {
    var after := Step(s, net, SenderJob(now, clock));
    if Transferring(s, net) && Productive(net, SenderJob(now, clock)) {
      BurstSends(s, net.snd.value, clock);
    } else {
      assert after.logS == net.logS;
    }
  }

  /** Until the sender has let go of its buffer some productive step is possible: no deadlock. */
  lemma NeverStuck(s: Session, net: Net) returns (x: Action)
    requires s.Valid() && Inv(s, net) && WellFormed(net) && net.snd.Some?
    ensures Enabled(net, x) && Productive(net, x)
  {
    if net.readR < |net.logS| { x := ToReceiver(1.0); }
    else if net.readS < |net.logR| { x := ToSender(1.0); }
    else { x := SenderJob(net.snd.value.deadline, 1.0); }
  }

  /** Number of productive steps of a run. */
  ghost function ProductiveSteps(s: Session, net: Net, xs: seq<Action>): nat
    requires WellFormed(net) && Runs(s, net, xs)
    decreases |xs|
  {
    if xs == [] then 0
    else
      StepWellFormed(s, net, xs[0]);
      (if Productive(net, xs[0]) then 1 else 0) + ProductiveSteps(s, Step(s, net, xs[0]), xs[1..])
  }

  /** Every run has boundedly many productive steps, so with `NeverStuck` every fair run completes. */
  lemma {:induction false} RunsTerminate(s: Session, net: Net, xs: seq<Action>)
    requires s.Valid() && WellFormed(net) && Inv(s, net) && Runs(s, net, xs)
    ensures s.Window() > 0 && ProductiveSteps(s, net, xs) <= Remaining(s, net)
    decreases |xs|
  {
    TotalBounds(s);
    if xs == [] {
      RemainingBounded(s, net);
    } else {
      StepInv(s, net, xs[0]);
      StepsProgress(s, net, xs[0]);
      RunsTerminate(s, Step(s, net, xs[0]), xs[1..]);
    }
  }
}
