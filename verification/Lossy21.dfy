/**
 Exact or nothing: a J1939-21 receiver on a bus that loses, duplicates and
 reorders the frames of one transfer, broadcast or directed.
 */
module Lossy21 {
  import opened Common
  import opened Wire
  import opened Transport21

  /** One message and its addresses; `dst` is GLOBAL for a broadcast. */
  datatype Message = Message(
    sender: Config, receiver: Config, src: int, dst: int, priority: int, pgn: int, payload: seq<int>)
  {
    ghost predicate Valid() {
      && sender.Valid() && receiver.Valid()
      && IsByte(src) && IsByte(dst) && 0 <= pgn < 0x2_0000
      && 9 <= |payload| <= 1785
    }

    function Started(): (Frame, SndBuf) { Start(sender, payload, dst, src, priority, pgn, dst, 1.0) }

    function Announcement(): Frame { Started().0 }

    function Total(): int { Packets(|payload|) }

    function Packet(i: nat): Frame { DtFrame(src, dst, payload, i) }

    /** A broadcast has its own PGN, a directed message one without the destination. */
    function Pgn(): int { if dst == GLOBAL then pgn else pgn - pgn % 0x100 }

    /** The only delivery that would be right. */
    function Expected(): Delivery {
      if Pgn() == PGN_COMMANDED_ADDRESS then CommandedAddress(src, dst, payload)
      else ToSubscribers(7, Pgn(), src, dst, payload)
    }
  }

  /** What the bus and the clock may do to the receiver next. */
  datatype Event =
    | Announce(clock: real)
    | Data(i: nat, clock: real)
    | Pass(now: real)

  function Frames(m: Message, e: Event): Frame
    requires !e.Pass?
  {
    if e.Announce? then m.Announcement() else m.Packet(e.i)
  }

  function React(m: Message, buf: Option<RcvBuf>, e: Event): (r: (Option<RcvBuf>, seq<Delivery>)) {
    if e.Pass? then (RcvJob(buf, e.now).0, [])
    else
      var r := Receive(m.receiver, buf, Frames(m, e), e.clock);
      (r.buf, r.out)
  }

  /** Everything delivered while the events happen one after the other. */
  function Run(m: Message, buf: Option<RcvBuf>, es: seq<Event>): (r: (Option<RcvBuf>, seq<Delivery>))
    decreases |es|
  {
    if es == [] then (buf, [])
    else
      var (b1, out1) := React(m, buf, es[0]);
      var (b2, out2) := Run(m, b1, es[1..]);
      (b2, out1 + out2)
  }

  /** Events only concern packets the message has. */
  ghost predicate OfMessage(m: Message, es: seq<Event>) {
    forall e :: e in es && e.Data? ==> e.i < m.Total()
  }

  function Announcements(es: seq<Event>): nat {
    if es == [] then 0 else (if es[0].Announce? then 1 else 0) + Announcements(es[1..])
  }

  /** What a receive buffer of this message looks like after `expected - 1` packets. */
  ghost predicate Partial(m: Message, buf: Option<RcvBuf>) {
    buf.Some? ==> var b := buf.value;
      && b.pgn == m.Pgn() && b.size == |m.payload| && b.num == m.Total()
      && 1 <= b.expected <= m.Total() && b.data == Gathered(m.payload, b.expected - 1)
  }

  lemma AnnouncementDecodes(m: Message)
    requires m.Valid()
    ensures var data := m.Announcement().data;
            && |data| == 8 && data[0] == (if m.dst == GLOBAL then CM_BAM else CM_RTS)
            && SizeOf(data) == |m.payload| && data[3] == m.Total()
            && PgnOf(data) == m.Pgn()
  {
    var pgn := m.Pgn();
    if m.dst == GLOBAL { CmFields(CM_BAM, |m.payload|, m.Total(), 0xFF, pgn); }
    else { CmFields(CM_RTS, |m.payload|, m.Total(), Min(m.sender.maxCmdt, m.Total()), pgn); }
  }

  lemma AnnouncementRoutes(m: Message, buf: Option<RcvBuf>, clock: real)
    requires m.Valid()
    ensures var f := m.Announcement();
            Receive(m.receiver, buf, f, clock) ==
            if m.dst == GLOBAL then OnBam(m.src, m.dst, f.data, clock)
            else OnRts(m.receiver, buf, m.src, m.dst, f.data, clock)
  {
    AnnouncementDecodes(m);
  }

  /** An announcement opens an empty buffer for this message, or leaves an open one alone. */
  lemma AnnounceKeepsPartial(m: Message, buf: Option<RcvBuf>, clock: real)
    requires m.Valid() && Partial(m, buf)
    ensures var (b, out) := React(m, buf, Announce(clock)); Partial(m, b) && out == [] && b.Some?
  {
    AnnouncementRoutes(m, buf, clock);
    AnnouncementDecodes(m);
    assert Gathered(m.payload, 0) == [];
  }

  lemma PacketRoutes(m: Message, buf: Option<RcvBuf>, i: nat, clock: real)
    requires m.Valid()
    ensures Receive(m.receiver, buf, m.Packet(i), clock)
         == OnDt(buf, 7, m.src, m.dst, m.Packet(i).data, clock)
  {
    assert |m.Packet(i).data| == 8;
  }

  lemma PacketKeepsPartial(m: Message, buf: Option<RcvBuf>, i: nat, clock: real)
    requires m.Valid() && Partial(m, buf) && i < m.Total()
    ensures var (b, out) := React(m, buf, Data(i, clock));
            && Partial(m, b) && (out == [] || out == [m.Expected()])
            && (out != [] ==> b.None?) && (buf.None? ==> b.None? && out == [])
    ensures buf.Some? && buf.value.expected == i + 1 ==>
            var (b, out) := React(m, buf, Data(i, clock));
            if i + 1 == m.Total() then out == [m.Expected()]
            else b.Some? && b.value.expected == i + 2
  {
    hide AbortFrame, CtsFrame, EomAckFrame, Chunk, Take, Packets;
    PacketRoutes(m, buf, i, clock);
    var data := m.Packet(i).data;
    assert data[0] == i + 1 && data[1..] == Chunk(m.payload, i);
    GatherNext(m.payload, i);
    ShortOfOne(m, i);
  }

  /** The message is complete with its last packet, not before. */
  lemma ShortOfOne(m: Message, i: nat)
    requires m.Valid() && i < m.Total()
    ensures i + 1 == m.Total() ==>
              7 * (i + 1) >= |m.payload| && Take(Gathered(m.payload, i + 1), |m.payload|) == m.payload
    ensures i + 1 < m.Total() ==> 7 * (i + 1) < |m.payload|
  {
  }

  /**
   Whatever happens to the frames of the transfer, everything delivered is the
   whole payload, and never more often than the transfer was announced.
   */
  lemma {:induction false} ExactOrNothing(m: Message, buf: Option<RcvBuf>, es: seq<Event>)
    requires m.Valid() && Partial(m, buf) && OfMessage(m, es)
    ensures var (b, out) := Run(m, buf, es);
            && Partial(m, b)
            && (forall d :: d in out ==> d == m.Expected())
            && |out| <= Announcements(es) + (if buf.Some? then 1 else 0)
    decreases |es|
  {
    if es != [] {
      match es[0] {
        case Announce(clock) => AnnounceKeepsPartial(m, buf, clock);
        case Data(i, clock) => PacketKeepsPartial(m, buf, i, clock);
        case Pass(now) =>
      }
      assert OfMessage(m, es[1..]);
      ExactOrNothing(m, React(m, buf, es[0]).0, es[1..]);
    }
  }

  /** The frames from packet `i` on, in order and without a timeout. */
  function InOrder(m: Message, i: nat, clock: real): seq<Event>
    requires i <= m.Total()
  {
    seq(m.Total() - i, k requires 0 <= k < m.Total() - i => Data(i + k, clock))
  }

  lemma {:induction false} InOrderDelivers(m: Message, buf: Option<RcvBuf>, i: nat, clock: real)
    requires m.Valid() && Partial(m, buf) && i < m.Total() && buf.Some? && buf.value.expected == i + 1
    ensures Run(m, buf, InOrder(m, i, clock)).1 == [m.Expected()]
    decreases m.Total() - i
  {
    hide React, Partial;
    var e, es := Data(i, clock), InOrder(m, i, clock);
    PacketKeepsPartial(m, buf, i, clock);
    var (b1, out1) := React(m, buf, e);
    assert es[0] == e && es[1..] == (if i + 1 < m.Total() then InOrder(m, i + 1, clock) else []);
    if i + 1 < m.Total() { InOrderDelivers(m, b1, i + 1, clock); }
    RunCons(m, buf, es, b1, out1);
  }

  lemma RunCons(m: Message, buf: Option<RcvBuf>, es: seq<Event>, b1: Option<RcvBuf>, out1: seq<Delivery>)
    requires es != [] && React(m, buf, es[0]) == (b1, out1)
    ensures Run(m, buf, es) == (Run(m, b1, es[1..]).0, out1 + Run(m, b1, es[1..]).1)
  {
  }

  /** A complete, ordered transfer is delivered, exactly once. */
  lemma LosslessDelivers(m: Message, clock: real)
    requires m.Valid()
    ensures Run(m, None, [Announce(clock)] + InOrder(m, 0, clock)).1 == [m.Expected()]
  {
    AnnounceKeepsPartial(m, None, clock);
    AnnouncementRoutes(m, None, clock);
    var es := [Announce(clock)] + InOrder(m, 0, clock);
    assert es[1..] == InOrder(m, 0, clock);
    InOrderDelivers(m, React(m, None, es[0]).0, 0, clock);
  }

  /** Frames of any passes over a send buffer. */
  function PassFrames(cfg: Config, buf: Option<SndBuf>, passes: seq<JobPass>): (r: (Option<SndBuf>, seq<Frame>))
    requires buf.Some? ==> SndWf(buf.value)
    decreases |passes|
  {
    if passes == [] || buf.None? then (buf, [])
    else
      var (b1, frames) := SndJob(cfg, buf.value, passes[0].now, passes[0].clock);
      var (b2, more) := PassFrames(cfg, b1, passes[1..]);
      (b2, frames + more)
  }

  /** Packets `i`, `i + 1`, ... of the message. */
  function PacketsFrom(m: Message, i: nat): (r: seq<Frame>)
    requires i <= m.Total()
    ensures |r| == m.Total() - i
    decreases m.Total() - i
  {
    if i == m.Total() then [] else [m.Packet(i)] + PacketsFrom(m, i + 1)
  }

  /** A broadcast buffer before packet `b.next`. */
  ghost predicate Broadcasting(m: Message, b: SndBuf) {
    b == m.Started().1.(next := b.next, deadline := b.deadline) && 0 <= b.next < m.Total() && b.deadline > 0.0
  }

  lemma BroadcastStep(m: Message, b: SndBuf, now: real, clock: real)
    requires m.Valid() && m.dst == GLOBAL && Broadcasting(m, b) && clock > 0.0
    ensures SndWf(b)
    ensures var b1 := b.(next := b.next + 1, deadline := clock + m.sender.bamInterval);
            && SndJob(m.sender, b, now, clock) ==
               (if b.deadline > now then (Some(b), [])
                else (if b.next + 1 < m.Total() then Some(b1) else None, [m.Packet(b.next)]))
            && (b.next + 1 < m.Total() ==> Broadcasting(m, b1))
  {
  }

  lemma PassFramesCons(cfg: Config, b: SndBuf, passes: seq<JobPass>)
    requires SndWf(b) && passes != []
    ensures var r := SndJob(cfg, b, passes[0].now, passes[0].clock);
            var more := PassFrames(cfg, r.0, passes[1..]);
            PassFrames(cfg, Some(b), passes) == (more.0, r.1 + more.1)
  {
    hide SndJob, SndWf;
  }

  /**
   Over any passes a broadcast sends its packets in order, one in each pass that is due
   and none in the others, and its buffer goes with the last one.
   */
  lemma {:induction false} BroadcastSendsAll(m: Message, b: SndBuf, passes: seq<JobPass>)
    requires m.Valid() && m.dst == GLOBAL && Broadcasting(m, b) && SndWf(b) && forall p :: p in passes ==> p.clock > 0.0
    ensures 0 <= b.next < m.Total()
    ensures var left := m.Total() - b.next;
            var n := DueFrames(passes, b.deadline, m.sender.bamInterval, left);
            var (buf, frames) := PassFrames(m.sender, Some(b), passes);
            && frames == PacketsFrom(m, b.next)[..n] && (buf.None? <==> n == left)
    decreases |passes|
  {
    hide SndJob, SndWf, Broadcasting, PassFrames, PacketsFrom;
    NextInRange(m, b);
    var left := m.Total() - b.next;
    if passes == [] {
      PassFramesEnd(m.sender, Some(b), []);
    } else {
      var now, clock, rest := passes[0].now, passes[0].clock, passes[1..];
      assert passes[0] in passes;
      BroadcastStep(m, b, now, clock);
      PassFramesCons(m.sender, b, passes);
      PacketsFromNext(m, b.next);
      if b.deadline > now {
        BroadcastSendsAll(m, b, rest);
        assert [] + PassFrames(m.sender, Some(b), rest).1 == PassFrames(m.sender, Some(b), rest).1;
      } else if left > 1 {
        var b1 := b.(next := b.next + 1, deadline := clock + m.sender.bamInterval);
        BroadcastStep(m, b1, now, clock);
        NextInRange(m, b1);
        BroadcastSendsAll(m, b1, rest);
        var n := DueFrames(rest, b1.deadline, m.sender.bamInterval, left - 1);
        ConsTake(m.Packet(b.next), PacketsFrom(m, b.next + 1), n);
      } else {
        PassFramesEnd(m.sender, None, rest);
        assert PacketsFrom(m, b.next + 1) == [];
        assert [m.Packet(b.next)] + [] == [m.Packet(b.next)];
      }
    }
  }

  lemma NextInRange(m: Message, b: SndBuf)
    requires Broadcasting(m, b)
    ensures 0 <= b.next < m.Total()
  {
  }

  lemma PassFramesEnd(cfg: Config, buf: Option<SndBuf>, passes: seq<JobPass>)
    requires (buf.Some? ==> SndWf(buf.value)) && (passes == [] || buf.None?)
    ensures PassFrames(cfg, buf, passes) == (buf, [])
  {
  }

  lemma PacketsFromNext(m: Message, i: nat)
    requires i < m.Total()
    ensures PacketsFrom(m, i) == [m.Packet(i)] + PacketsFrom(m, i + 1)
  {
  }

  /** The buffer a broadcast starts with. */
  lemma BroadcastStarts(m: Message)
    requires m.Valid() && m.dst == GLOBAL
    ensures var b := m.Started().1; Broadcasting(m, b) && SndWf(b) && b.next == 0
  {
  }
}
