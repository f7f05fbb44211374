/**
 What a J1939-21 node says and how long it waits, in the bytes on the bus and in
 seconds: every frame has the layout of SAE J1939-21 section 5.10, every answer goes
 back to its peer, and no session outlives its peer.
 */
module Behaviour21 {
  import opened Common
  import opened Wire
  import opened Transport21
  import opened Isolation21
  import L = Lossy21
  import D = DataLink21

  /** A management frame: five bytes of its own and the PGN it is about. */
  ghost predicate Tells(f: Frame, priority: int, src: int, dst: int, head: seq<int>, pgn: int) {
    && f.extended && f.header == Header(0, 236, dst, src, priority % 8)
    && f.data == head + [pgn % 0x100, pgn / 0x100 % 0x100, pgn / 0x1_0000 % 0x100]
  }

  ghost predicate TellsCts(f: Frame, src: int, dst: int, count: int, first: int, pgn: int) {
    Tells(f, 7, src, dst, [17, count, first, 0xFF, 0xFF], pgn)
  }

  ghost predicate TellsAck(f: Frame, src: int, dst: int, size: int, packets: int, pgn: int) {
    Tells(f, 7, src, dst, [19, size % 0x100, size / 0x100 % 0x100, packets, 0xFF], pgn)
  }

  /** Reasons are 1 for busy, 2 for missing resources, 3 for a timeout. */
  ghost predicate TellsAbort(f: Frame, src: int, dst: int, reason: int, pgn: int) {
    Tells(f, 7, src, dst, [255, reason, 0xFF, 0xFF, 0xFF], pgn)
  }

  /** A data frame: the number of the packet, from one, and its seven bytes. */
  ghost predicate CarriesPacket(f: Frame, src: int, dst: int, payload: seq<int>, i: nat) {
    && f.extended && f.header == Header(0, 235, dst, src, 7) && |f.data| == 8 && f.data[0] == i + 1
    && forall j :: 0 <= j < 7 ==> f.data[1..][j] == if 7 * i + j < |payload| then payload[7 * i + j] else 0xFF
  }

  function PgnIn(data: seq<int>): int
    requires |data| >= 8
  {
    data[5] + data[6] * 0x100 + data[7] * 0x1_0000
  }

  function SizeIn(data: seq<int>): int
    requires |data| >= 8
  {
    data[1] + data[2] * 0x100
  }

  lemma BytesOf(x: int)
    ensures Bytes(x, 1) == [x % 0x100]
    ensures Bytes(x, 2) == [x % 0x100, x / 0x100 % 0x100]
    ensures Bytes(x, 3) == [x % 0x100, x / 0x100 % 0x100, x / 0x1_0000 % 0x100]
  {
    ByteSteps(x);
    assert Bytes(x / 0x1_0000, 0) == [] && Bytes(x / 0x100, 0) == [] && Bytes(x, 0) == [];
    assert Bytes(x / 0x1_0000, 1) == [x / 0x1_0000 % 0x100];
    assert Bytes(x / 0x100, 1) == [x / 0x100 % 0x100];
    assert Bytes(x / 0x100, 2) == [x / 0x100 % 0x100] + Bytes(x / 0x1_0000, 1);
  }

  lemma FieldsIn(data: seq<int>)
    requires |data| >= 8
    ensures PgnOf(data) == PgnIn(data) && SizeOf(data) == SizeIn(data)
  {
    var p, s := data[5..8], data[1..3];
    assert p[1..] == [data[6], data[7]] && p[1..][1..] == [data[7]] && [data[7]][1..] == [];
    assert LittleEndian([data[7]]) == data[7];
    assert LittleEndian(p[1..]) == data[6] + 0x100 * data[7];
    assert s[1..] == [data[2]] && [data[2]][1..] == [];
    assert LittleEndian([data[2]]) == data[2];
  }

  // ---- frames ----

  lemma CtsTells(src: int, dst: int, count: int, first: int, pgn: int)
    requires IsByte(src) && IsByte(dst)
    ensures TellsCts(CtsFrame(src, dst, count, first, pgn), src, dst, count, first, pgn)
  {
    BytesOf(pgn);
  }

  lemma AckTells(src: int, dst: int, size: int, packets: int, pgn: int)
    requires IsByte(src) && IsByte(dst)
    ensures TellsAck(EomAckFrame(src, dst, size, packets, pgn), src, dst, size, packets, pgn)
  {
    BytesOf(pgn);
    BytesOf(size);
  }

  lemma AbortTells(src: int, dst: int, reason: int, pgn: int)
    requires IsByte(src) && IsByte(dst)
    ensures TellsAbort(AbortFrame(src, dst, reason, pgn), src, dst, reason, pgn)
  {
    BytesOf(pgn);
  }

  lemma PacketTells(src: int, dst: int, payload: seq<int>, i: nat)
    requires IsByte(src) && IsByte(dst)
    ensures CarriesPacket(DtFrame(src, dst, payload, i), src, dst, payload, i)
  {
  }

  // ---- sending ----

  /**
   A broadcast is announced under its own PGN, a directed message under the PGN with a
   low byte of zero; the packets are as many as are needed.
   */
  lemma StartTells(cfg: Config, payload: seq<int>, dst: int, src: int, priority: int, pgn: int, clock: real)
    requires IsByte(src) && IsByte(dst) && payload != []
    ensures var (f, b) := Start(cfg, payload, dst, src, priority, pgn, dst, clock);
            var n := b.num;
            && 7 * (n - 1) < |payload| <= 7 * n && b.size == |payload| && b.data == payload && b.priority == priority
            && b.src == src && b.dst == dst && b.next == 0 && b.waitOn == 0
            && b.pgn == (if dst == 255 then pgn else pgn - pgn % 0x100)
            && (if dst == 255 then
                  && Tells(f, priority, src, 255,
                           [32, |payload| % 0x100, |payload| / 0x100 % 0x100, n, 0xFF], pgn)
                  && b.state.SendingBm? && b.deadline == clock + cfg.bamInterval
                else
                  && Tells(f, priority, src, dst,
                           [16, |payload| % 0x100, |payload| / 0x100 % 0x100, n, Min(cfg.maxCmdt, n)],
                           pgn - pgn % 0x100)
                  && b.state.WaitingCts? && b.deadline == clock + 1.25)
  {
    BytesOf(|payload|);
    BytesOf(pgn);
    BytesOf(pgn - pgn % 0x100);
  }

  /**
   A message of more than eight bytes is announced to its destination, or to everybody if
   that is 255 or the format is one of 240..255, under a PGN with the page and format
   passed in, and with its size.
   */
  lemma LongMessageIsAnnounced(cfg: Config, dataPage: int, pduFormat: int, pduSpecific: int, priority: int, src: int,
                               data: seq<int>, clock: real)
    requires 0 <= dataPage < 2 && IsByte(pduFormat) && IsByte(pduSpecific) && IsByte(src) && data != []
    ensures var toAll := pduSpecific == 255 || pduFormat >= 240;
            var dst, pgn := if toAll then 255 else pduSpecific, PgnValue(dataPage, pduFormat, pduSpecific);
            var (f, b) := D.StartQueued(cfg, D.Queued(Hash(src, dst), pduSpecific, priority, src, pgn, data, dst),
                clock);
            && b.data == data && b.src == src && b.dst == dst
            && b.pgn / 0x1_0000 == dataPage && b.pgn / 0x100 % 0x100 == pduFormat
            && b.pgn % 0x100 == (if toAll then pduSpecific else 0)
            && (if toAll then
                  Tells(f, priority, src, 255, [32, |data| % 0x100, |data| / 0x100 % 0x100, b.num, 0xFF], b.pgn)
                else
                  Tells(f, priority, src, dst,
                        [16, |data| % 0x100, |data| / 0x100 % 0x100, b.num, Min(cfg.maxCmdt, b.num)], b.pgn))
  {
    hide PgnValue, Tells, Hash;
    var pgn := PgnValue(dataPage, pduFormat, pduSpecific);
    var dst := if pduSpecific == 255 || pduFormat >= 240 then 255 else pduSpecific;
    PgnFields(dataPage, pduFormat, pduSpecific);
    StartTells(cfg, data, dst, src, priority, pgn, clock);
    ByteSteps(pgn);
    ByteSteps(pgn - pgn % 0x100);
  }

  /** A frame about a message being sent here; its addresses and bytes are what the bus delivers. */
  predicate Heard(f: Frame) {
    InRange(f.header) && IsBytes(f.data)
  }

  /**
   A clear to send: for an unknown message it is refused; zero packets mean half a
   second of patience and nothing else; otherwise the buffer is due at once, for as
   many packets as are asked for and exist behind the one asked for.
   */
  lemma CtsIsObeyed(buf: Option<SndBuf>, f: Frame, clock: real)
    requires Heard(f) && f.header.format == 236 && |f.data| >= 8 && f.data[0] == 17
    ensures var r := Answer(buf, f, clock);
            && r.out == []
            && (if buf.None? then
                  && r.buf.None? && |r.sent| == 1
                  && TellsAbort(r.sent[0], f.header.specific, f.header.source, 2, PgnIn(f.data))
                else
                  && r.sent == [] && r.buf.Some?
                  && var b, b1 := buf.value, r.buf.value;
                     if f.data[1] == 0 then b1 == b.(deadline := clock + 0.5)
                     else
                       && b1 == b.(deadline := clock, state := SendingInCts, waitOn := b1.waitOn)
                       && b1.waitOn + 1 - b.next
                          == Min(Min(f.data[1], b.num), b.num - (f.data[2] - 1)))
  {
    FieldsIn(f.data);
    AbortTells(f.header.specific, f.header.source, 2, PgnIn(f.data));
  }

  /** The end of message acknowledgement is handed to the subscribers as it came, and the buffer goes next. */
  lemma AckEndsTransfer(buf: Option<SndBuf>, f: Frame, clock: real)
    requires Heard(f) && f.header.format == 236 && |f.data| >= 8 && f.data[0] == 19
    ensures var r, h := Answer(buf, f, clock), f.header;
            if buf.None? then
              && r.buf.None? && r.out == [] && |r.sent| == 1
              && TellsAbort(r.sent[0], h.specific, h.source, 2, PgnIn(f.data))
            else
              && r.sent == [] && r.out == [ToSubscribers(h.priority, PgnIn(f.data), h.source, h.specific, f.data)]
              && r.buf == Some(buf.value.(state := TransmissionFinished, deadline := clock))
  {
    FieldsIn(f.data);
    AbortTells(f.header.specific, f.header.source, 2, PgnIn(f.data));
  }

  /** An abort from the peer ends a transfer that waits for a grant, silently. */
  lemma AbortEndsTransfer(buf: Option<SndBuf>, f: Frame, clock: real)
    requires Heard(f) && f.header.format == 236 && |f.data| >= 8 && f.data[0] == 255
    ensures var r := Answer(buf, f, clock);
            && r.sent == [] && r.out == []
            && r.buf == if buf.Some? && buf.value.state.WaitingCts?
                        then Some(buf.value.(state := TransmissionFinished, deadline := clock)) else buf
  {
  }

  /** A buffer whose time has not come, or that has none, is left alone. */
  lemma NotYetDue(cfg: Config, b: SndBuf, now: real, clock: real)
    requires SndWf(b) && (b.deadline == 0.0 || now < b.deadline)
    ensures SndJob(cfg, b, now, clock) == (Some(b), [])
  {
  }

  /** A sender that waits in vain tells its peer and frees the address pair. */
  lemma WaitingTimesOut(cfg: Config, b: SndBuf, now: real, clock: real)
    requires SndWf(b) && IsByte(b.src) && IsByte(b.dst) && 0.0 < b.deadline <= now && b.state.WaitingCts?
    ensures var (b1, frames) := SndJob(cfg, b, now, clock);
            b1.None? && |frames| == 1 && TellsAbort(frames[0], b.src, b.dst, 3, b.pgn)
  {
    AbortTells(b.src, b.dst, 3, b.pgn);
  }

  lemma FinishedGoes(cfg: Config, b: SndBuf, now: real, clock: real)
    requires SndWf(b) && 0.0 < b.deadline <= now && b.state.TransmissionFinished?
    ensures SndJob(cfg, b, now, clock) == (None, [])
  {
  }

  /** Frames `first`, `first + 1`, ... of a message. */
  ghost predicate PacketsInOrder(frames: seq<Frame>, b: SndBuf, first: nat) {
    forall i :: 0 <= i < |frames| ==> CarriesPacket(frames[i], b.src, b.dst, b.data, first + i)
  }

  /** How many packets one pass sends: the rest of the window, or one with a packet interval, if there are any. */
  function SentAtOnce(cfg: Config, b: SndBuf): int {
    if cfg.rtsInterval.Some? then Min(1, b.num - b.next) else Min(b.waitOn + 1, b.num) - b.next
  }

  /**
   A window: consecutive packets up to the last one granted or the last there is, all in
   one pass without a packet interval, one a pass with it. Behind the window the sender
   waits 1.25 s, inside it for the interval.
   */
  lemma {:induction false} WindowIsSent(cfg: Config, b: SndBuf, clock: real)
    requires SndWf(b) && IsByte(b.src) && IsByte(b.dst) && b.next <= b.waitOn && b.next <= b.num
              && b.state.SendingInCts?
    ensures var (b1, frames) := Burst(cfg, b, clock);
            && |frames| == SentAtOnce(cfg, b) && PacketsInOrder(frames, b, b.next)
            && b1 == b.(next := b.next + |frames|, state := b1.state, deadline := b1.deadline)
            && (if b1.next > b.waitOn then b1.state.WaitingCts? && b1.deadline == clock + 1.25
                else
                  && b1.state.SendingInCts?
                  && b1.deadline == if cfg.rtsInterval.Some? && frames != [] then clock + cfg.rtsInterval.value
                                    else b.deadline)
    decreases b.num - b.next
  {
    hide DtFrame, CarriesPacket;
    PacketTells(b.src, b.dst, b.data, b.next);
    if b.next < b.num && b.next < b.waitOn && cfg.rtsInterval.None? {
      var b0 := b.(next := b.next + 1);
      WindowIsSent(cfg, b0, clock);
      var frames := Burst(cfg, b0, clock).1;
      forall i | 0 <= i < |frames| + 1
        ensures CarriesPacket(([DtFrame(b.src, b.dst, b.data, b.next)] + frames)[i], b.src, b.dst, b.data, b.next + i)
      {
        if i > 0 { assert CarriesPacket(frames[i - 1], b0.src, b0.dst, b0.data, b0.next + (i - 1)); }
      }
    }
  }

  lemma GrantedPass(cfg: Config, b: SndBuf, now: real, clock: real)
    requires SndWf(b) && 0.0 < b.deadline <= now && b.state.SendingInCts?
    ensures SndJob(cfg, b, now, clock) == (Some(Burst(cfg, b, clock).0), Burst(cfg, b, clock).1)
  {
  }

  /** A due broadcast sends its next packet and waits for the interval, or is gone after the last. */
  lemma BroadcastPass(cfg: Config, b: SndBuf, now: real, clock: real)
    requires SndWf(b) && IsByte(b.src) && IsByte(b.dst) && 0.0 < b.deadline <= now && b.state.SendingBm?
    ensures var (b1, frames) := SndJob(cfg, b, now, clock);
            && |frames| == 1 && CarriesPacket(frames[0], b.src, b.dst, b.data, b.next)
            && b1 == if b.next + 1 < b.num then Some(b.(next := b.next + 1, deadline := clock + cfg.bamInterval))
                else None
  {
    PacketTells(b.src, b.dst, b.data, b.next);
  }

  // ---- receiving ----

  /**
   A request to send is granted from the first packet, within what both sides can take,
   unless a session of the pair is open: then the peer is told, and the session goes on.
   */
  lemma RtsIsAnswered(cfg: Config, buf: Option<RcvBuf>, f: Frame, clock: real)
    requires Heard(f) && f.header.format == 236 && |f.data| >= 8 && f.data[0] == 16
    ensures var r, src, dst := Receive(cfg, buf, f, clock), f.header.source, f.header.specific;
            var window := Min(cfg.maxCmdt, Min(f.data[4], f.data[3]));
            && |r.sent| == 1 && r.out == [] && r.error.None? && r.buf.Some?
            && (if buf.Some? then
                  r.buf == buf && TellsAbort(r.sent[0], dst, src, 1, PgnIn(f.data))
                else
                  && TellsCts(r.sent[0], dst, src, window, 1, PgnIn(f.data))
                  && r.buf.value == RcvBuf(PgnIn(f.data), SizeIn(f.data), f.data[3], 1, window, Some(window), [],
                                           r.buf.value.deadline, src, dst))
  {
    FieldsIn(f.data);
    var src, dst := f.header.source, f.header.specific;
    AbortTells(dst, src, 1, PgnIn(f.data));
    CtsTells(dst, src, Min(cfg.maxCmdt, Min(f.data[4], f.data[3])), 1, PgnIn(f.data));
  }

  /** A broadcast announcement starts anew, whatever was being received. */
  lemma BamOpens(cfg: Config, buf: Option<RcvBuf>, f: Frame, clock: real)
    requires Heard(f) && f.header.format == 236 && |f.data| >= 8 && f.data[0] == 32
    ensures var r := Receive(cfg, buf, f, clock);
            && r.sent == [] && r.out == [] && r.error.None? && r.buf.Some?
            && r.buf.value == RcvBuf(PgnIn(f.data), SizeIn(f.data), f.data[3], 1, 1, None, [],
                                     r.buf.value.deadline, f.header.source, f.header.specific)
  {
    FieldsIn(f.data);
  }

  /** A packet out of sequence ends the session, and a directed sender is told why. */
  lemma OutOfSequence(cfg: Config, b: RcvBuf, f: Frame, clock: real)
    requires Heard(f) && f.header.format == 235 && |f.data| >= 1 && f.data[0] != b.expected
    ensures var r := Receive(cfg, Some(b), f, clock);
            && r.buf.None? && r.out == [] && r.error == Some(ValueError)
            && (if f.header.specific == 255 then r.sent == []
                else |r.sent| == 1 && TellsAbort(r.sent[0], f.header.specific, f.header.source, 2, b.pgn))
  {
    AbortTells(f.header.specific, f.header.source, 2, b.pgn);
  }

  /** Packets of a session nobody opened are ignored. */
  lemma UnknownPacket(cfg: Config, f: Frame, clock: real)
    requires Heard(f) && f.header.format == 235 && |f.data| >= 1
    ensures Receive(cfg, None, f, clock) == RcvResult(None, [], [], None)
  {
  }

  /**
   The packet expected adds its bytes. With the last byte of the message the message is
   delivered, cut to the announced size, acknowledged if it is directed, and the session
   is over; with the last packet of a window the next one is granted; a session that no
   RTS opened has no window to grant.
   */
  lemma ExpectedPacket(cfg: Config, b: RcvBuf, f: Frame, clock: real)
    requires Heard(f) && f.header.format == 235 && |f.data| >= 1 && f.data[0] == b.expected && b.size >= 0
    ensures var r, src, dst := Receive(cfg, Some(b), f, clock), f.header.source, f.header.specific;
            var all := b.data + f.data[1..];
            if |all| >= b.size then
              && r.buf.None? && r.error.None?
              && r.out == [if b.pgn == 65240 then CommandedAddress(src, dst, all[..b.size])
                           else ToSubscribers(f.header.priority, b.pgn, src, dst, all[..b.size])]
              && (if dst == 255 then r.sent == []
                  else |r.sent| == 1 && TellsAck(r.sent[0], dst, src, b.size, b.num, b.pgn))
            else
              && r.out == [] && r.buf.Some?
              && var b1 := r.buf.value;
                 && b1 == b.(data := all, expected := b.expected + 1, border := b1.border, deadline := b1.deadline)
                 && (if dst == 255 || b.expected < b.border then
                       r.sent == [] && r.error.None? && b1.border == b.border
                     else if b.maxRec.None? then
                       r.sent == [] && r.error == Some(KeyError) && b1 == b.(data := all, expected := b.expected + 1)
                     else
                       var count := Min(b.maxRec.value, b.num - b.border);
                       && r.error.None? && b1.border == b.border + count
                       && |r.sent| == 1 && TellsCts(r.sent[0], dst, src, count, b.border + 1, b.pgn))
  {
    var src, dst := f.header.source, f.header.specific;
    AckTells(dst, src, b.size, b.num, b.pgn);
    if b.maxRec.Some? { CtsTells(dst, src, Min(b.maxRec.value, b.num - b.border), b.border + 1, b.pgn); }
  }

  /** Having granted packets the receiver waits 1.25 s for the first of them, otherwise 0.75 s for the next. */
  lemma ReceiverWaits(cfg: Config, buf: Option<RcvBuf>, f: Frame, clock: real)
    requires Receive(cfg, buf, f, clock).buf.Some? && Receive(cfg, buf, f, clock).buf != buf
    requires Receive(cfg, buf, f, clock).error.None?
    ensures var r := Receive(cfg, buf, f, clock);
            r.buf.value.deadline == clock + if r.sent == [] then 0.75 else 1.25
  {
  }

  /** A receiver that waits in vain closes the session at its deadline, not before, and tells a directed sender. */
  lemma ReceiverTimesOut(b: RcvBuf, now: real)
    requires IsByte(b.src) && IsByte(b.dst) && b.deadline > 0.0
    ensures var (b1, frames) := RcvJob(Some(b), now);
            if now < b.deadline then b1 == Some(b) && frames == []
            else b1.None? && if b.dst == 255 then frames == []
                             else |frames| == 1 && TellsAbort(frames[0], b.dst, b.src, 3, b.pgn)
  {
    AbortTells(b.dst, b.src, 3, b.pgn);
  }

  /** Which frames the layer takes part in, and which of its buffers they are about. */
  lemma FramesAreRouted(f: Frame)
    requires Heard(f) && f.header.dataPage == 0 && (f.header.format == 235 || f.header.format == 236)
    ensures IsTransport(f.header)
    ensures ForReceiver(f) <==> f.header.format == 235 || (|f.data| >= 8 && f.data[0] in {16, 32})
    ensures ForSender(f) <==> f.header.format == 236 && |f.data| >= 8 && f.data[0] in {17, 19, 255}
    ensures RcvKey(f.header) == f.header.source * 0x100 + f.header.specific
    ensures SndKey(f.header) == f.header.specific * 0x100 + f.header.source
  {
  }

  // ---- no session outlives its peer ----

  /** Every session is closed within 1.25 s of `clock` unless something more arrives. */
  ghost predicate WithinReach(rcv: map<int, RcvBuf>, clock: real) {
    forall k :: k in rcv ==> 0.0 < rcv[k].deadline <= clock + 1.25
  }

  ghost predicate Until(es: seq<Event>, clock: real) {
    forall e :: e in es ==> Valid(e) && (e.Arrive? ==> 0.0 < e.clock <= clock)
  }

  lemma StepWithinReach(cfg: Config, rcv: map<int, RcvBuf>, e: Event, clock: real)
    requires Valid(e) && WithinReach(rcv, clock) && (e.Arrive? ==> 0.0 < e.clock <= clock)
    ensures WithinReach(React(cfg, rcv, e).0, clock)
  {
    hide Hash;
    if e.Arrive? {
      var k := RcvKey(e.frame.header);
      var buf := Get(rcv, k);
      var r := Receive(cfg, buf, e.frame, e.clock);
      if r.buf.Some? { AnyReach(cfg, buf, e.frame, e.clock, clock); }
    }
  }

  /** An exception for want of a window leaves the deadline as it was. */
  lemma AnyReach(cfg: Config, buf: Option<RcvBuf>, f: Frame, at: real, clock: real)
    requires Receive(cfg, buf, f, at).buf.Some? && 0.0 < at <= clock
    requires buf.Some? ==> 0.0 < buf.value.deadline <= clock + 1.25
    ensures 0.0 < Receive(cfg, buf, f, at).buf.value.deadline <= clock + 1.25
  {
    hide AbortFrame, CtsFrame, EomAckFrame, Take;
  }

  lemma {:induction false} RunWithinReach(cfg: Config, rcv: map<int, RcvBuf>, es: seq<Event>, clock: real)
    requires Until(es, clock) && WithinReach(rcv, clock)
    ensures WithinReach(Run(cfg, rcv, es).0, clock)
    decreases |es|
  {
    hide React, WithinReach;
    if es != [] {
      assert es[0] in es;
      StepWithinReach(cfg, rcv, es[0], clock);
      RunWithinReach(cfg, React(cfg, rcv, es[0]).0, es[1..], clock);
    }
  }

  /** Nothing arrives for the address pair, and the job thread gets its turn at `due` or later. */
  ghost predicate Silent(es: seq<Event>, src: int, dst: int, due: real) {
    && (forall e :: e in es ==> Valid(e) && (e.Arrive? ==> !Concerns(e, src, dst)))
    && exists e :: e in es && e.Pass? && e.now >= due
  }

  lemma OtherPair(cfg: Config, rcv: map<int, RcvBuf>, e: Event, src: int, dst: int)
    requires Valid(e) && e.Arrive? && !Concerns(e, src, dst) && IsByte(src) && IsByte(dst)
    ensures Get(React(cfg, rcv, e).0, Hash(src, dst)) == Get(rcv, Hash(src, dst))
  {
    hide Receive, Hash;
    HashInjective(e.frame.header.source, e.frame.header.specific, src, dst);
  }

  lemma {:induction false} SilenceCloses(cfg: Config, rcv: map<int, RcvBuf>, es: seq<Event>, src: int, dst: int,
      due: real)
    requires Silent(es, src, dst, due) && IsByte(src) && IsByte(dst)
    requires Get(rcv, Hash(src, dst)).Some? ==> 0.0 < rcv[Hash(src, dst)].deadline <= due
    ensures Get(Run(cfg, rcv, es).0, Hash(src, dst)).None?
    decreases |es|
  {
    hide Hash, Receive;
    var e, rest := es[0], es[1..];
    assert e in es && es == [e] + rest;
    var next := React(cfg, rcv, e).0;
    if e.Arrive? { OtherPair(cfg, rcv, e, src, dst); }
    if e.Pass? && e.now >= due {
      StaysClosed(cfg, next, rest, src, dst);
    } else {
      var p :| p in es && p.Pass? && p.now >= due;
      assert p in rest;
      SilenceCloses(cfg, next, rest, src, dst, due);
    }
  }

  lemma {:induction false} StaysClosed(cfg: Config, rcv: map<int, RcvBuf>, es: seq<Event>, src: int, dst: int)
    requires (forall e :: e in es ==> Valid(e) && (e.Arrive? ==> !Concerns(e, src, dst))) && IsByte(src) && IsByte(dst)
    requires Get(rcv, Hash(src, dst)).None?
    ensures Get(Run(cfg, rcv, es).0, Hash(src, dst)).None?
    decreases |es|
  {
    hide Hash, Receive;
    if es != [] {
      assert es[0] in es;
      if es[0].Arrive? { OtherPair(cfg, rcv, es[0], src, dst); }
      StaysClosed(cfg, React(cfg, rcv, es[0]).0, es[1..], src, dst);
    }
  }

  lemma {:induction false} RunOn(cfg: Config, rcv: map<int, RcvBuf>, es: seq<Event>, more: seq<Event>)
    requires (forall e :: e in es ==> Valid(e)) && forall e :: e in more ==> Valid(e)
    ensures Run(cfg, rcv, es + more).0 == Run(cfg, Run(cfg, rcv, es).0, more).0
    decreases |es|
  {
    hide React;
    if es == [] {
      assert es + more == more;
    } else {
      assert (es + more)[1..] == es[1..] + more;
      RunOn(cfg, React(cfg, rcv, es[0]).0, es[1..], more);
    }
  }

  /**
   Whatever happened up to `clock`: when a sender falls silent, its session is closed by
   the first pass 1.25 s later at the latest, and its next request to send is granted.
   */
  lemma SilentSenderIsFreed(cfg: Config, es: seq<Event>, more: seq<Event>, clock: real, f: Frame, again: real)
    requires Until(es, clock) && Silent(more, f.header.source, f.header.specific, clock + 1.25)
    requires Heard(f) && f.header.format == 236 && |f.data| >= 8 && f.data[0] == 16
    ensures forall e :: e in es + more ==> Valid(e)
    ensures var rcv := Run(cfg, map[], es + more).0;
            var r := Receive(cfg, Get(rcv, RcvKey(f.header)), f, again);
            && Get(rcv, RcvKey(f.header)).None? && r.buf.Some? && |r.sent| == 1
            && TellsCts(r.sent[0], f.header.specific, f.header.source,
                        Min(cfg.maxCmdt, Min(f.data[4], f.data[3])), 1, PgnIn(f.data))
  {
    hide Receive, Hash, Run, TellsCts;
    RunWithinReach(cfg, map[], es, clock);
    RunOn(cfg, map[], es, more);
    SilenceCloses(cfg, Run(cfg, map[], es).0, more, f.header.source, f.header.specific, clock + 1.25);
    RtsIsAnswered(cfg, None, f, again);
  }

  /** A directed transfer without an answer ends at its deadline, with one abort, whatever passes there are. */
  lemma {:induction false} SilentReceiverIsGivenUp(cfg: Config, b: SndBuf, passes: seq<JobPass>)
    requires SndWf(b) && IsByte(b.src) && IsByte(b.dst) && 0.0 < b.deadline && b.state.WaitingCts?
    ensures var (b1, frames) := L.PassFrames(cfg, Some(b), passes);
            if forall p :: p in passes ==> p.now < b.deadline then b1 == Some(b) && frames == []
            else b1.None? && |frames| == 1 && TellsAbort(frames[0], b.src, b.dst, 3, b.pgn)
    decreases |passes|
  {
    hide TellsAbort, SndJob;
    if passes != [] {
      var p := passes[0];
      assert passes == [p] + passes[1..];
      if p.now < b.deadline {
        NotYetDue(cfg, b, p.now, p.clock);
        SilentReceiverIsGivenUp(cfg, b, passes[1..]);
      } else {
        WaitingTimesOut(cfg, b, p.now, p.clock);
        assert L.PassFrames(cfg, None, passes[1..]) == (None, []);
      }
    }
  }
}
