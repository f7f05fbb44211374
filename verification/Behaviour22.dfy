/**
 What a J1939-22 node says and how long it waits, in the bytes on the bus and in
 seconds: the layout of every frame, what each frame is answered with, and that no
 session outlives its peer.
 */
module Behaviour22 {
  import opened Common
  import opened Wire
  import opened Transport22
  import opened Isolation22
  import D = DataLink22
  import L = Lossy22
  import M = MultiPg

  function Three(x: int): (b: seq<int>)
    ensures |b| == 3
  {
    [x % 0x100, x / 0x100 % 0x100, x / 0x1_0000 % 0x100]
  }

  /** A management frame of twelve bytes. */
  ghost predicate Tells(f: Frame, priority: int, src: int, dst: int, kind: int, session: int, size: int, segments: int,
                        byte7: int, byte8: int, pgn: int)
  {
    && f.extended && f.header == Header(0, 77, dst, src, priority % 8)
    && f.data == [kind + 16 * session] + Three(size) + Three(segments) + [byte7, byte8] + Three(pgn)
  }

  ghost predicate TellsCts(f: Frame, src: int, dst: int, session: int, count: int, first: int, pgn: int) {
    Tells(f, 7, src, dst, 1, session, 0xFF_FFFF, first, count, 0, pgn)
  }

  ghost predicate TellsStatus(f: Frame, src: int, dst: int, session: int, size: int, segments: int, pgn: int) {
    Tells(f, 7, src, dst, 2, session, size, segments, 0, 0, pgn)
  }

  ghost predicate TellsAck(f: Frame, src: int, dst: int, session: int, size: int, segments: int, pgn: int) {
    Tells(f, 7, src, dst, 3, session, size, segments, 0xFF, 0xFF, pgn)
  }

  /** Reasons are 1 for busy, 2 for missing resources, 3 for a timeout. */
  ghost predicate TellsAbort(f: Frame, src: int, dst: int, session: int, reason: int, pgn: int) {
    Tells(f, 7, src, dst, 15, session, 0xFF_FFFF, 0xFF_FFFF, 0xFF, reason, pgn)
  }

  /** A data frame: session, number of the segment from one, its bytes, filled up with 0xFF to a legal length. */
  ghost predicate CarriesSegment(f: Frame, src: int, dst: int, session: int, number: int, chunk: seq<int>) {
    && f.extended && f.header == Header(0, 78, dst, src, 7)
    && 4 + |chunk| <= |f.data| && FdLength(|f.data|) && (forall m :: FdLength(m) && 4 + |chunk| <= m ==> |f.data| <= m)
    && f.data[..4] == [16 * session] + Three(number) && f.data[4..4 + |chunk|] == chunk
    && forall i :: 4 + |chunk| <= i < |f.data| ==> f.data[i] == 0xFF
  }

  /** The fields of a management frame, by their place in it. */
  function KindIn(data: seq<int>): int
    requires |data| >= 12
  {
    data[0] % 16
  }

  function NumberIn(data: seq<int>): int
    requires |data| > 0
  {
    data[0] / 16
  }

  function ThreeIn(data: seq<int>, at: nat): int
    requires at + 3 <= |data|
  {
    data[at] + data[at + 1] * 0x100 + data[at + 2] * 0x1_0000
  }

  lemma BytesOf(x: int)
    ensures Bytes(x, 3) == Three(x)
  {
    ByteSteps(x);
    assert Bytes(x / 0x1_0000, 0) == [] && Bytes(x / 0x100, 0) == [] && Bytes(x, 0) == [];
    assert Bytes(x / 0x1_0000, 1) == [x / 0x1_0000 % 0x100];
    assert Bytes(x / 0x100, 2) == [x / 0x100 % 0x100] + Bytes(x / 0x1_0000, 1);
  }

  lemma ThreeRead(data: seq<int>, at: nat)
    requires at + 3 <= |data|
    ensures LittleEndian(data[at..at + 3]) == ThreeIn(data, at)
  {
    var p := data[at..at + 3];
    assert p[1..] == [data[at + 1], data[at + 2]] && p[1..][1..] == [data[at + 2]] && [data[at + 2]][1..] == [];
    assert LittleEndian([data[at + 2]]) == data[at + 2];
    assert LittleEndian(p[1..]) == data[at + 1] + 0x100 * data[at + 2];
  }

  lemma FieldsIn(data: seq<int>)
    requires |data| >= 12 && IsBytes(data)
    ensures Decode(data)
              == Cm(KindIn(data), NumberIn(data), ThreeIn(data, 1), ThreeIn(data, 4), data[7], ThreeIn(data, 9))
    ensures SessionOf(data) == NumberIn(data)
  {
    ThreeRead(data, 1);
    ThreeRead(data, 4);
    ThreeRead(data, 9);
    assert IsByte(data[0]);
  }

  // ---- frames ----

  lemma CmTells(priority: int, src: int, dst: int, kind: int, session: int, size: int, segments: int,
                byte7: int, byte8: int, pgn: int)
    requires IsByte(src) && IsByte(dst) && 0 <= kind < 16 && 0 <= session < 16
    ensures Tells(CmFrame(priority, src, dst, CmData(kind, session, size, segments, byte7, byte8, pgn)),
                  priority, src, dst, kind, session, size, segments, byte7 % 0x100, byte8 % 0x100, pgn)
  {
    BytesOf(size);
    BytesOf(segments);
    BytesOf(pgn);
  }

  lemma CtsTells(src: int, dst: int, session: int, count: int, first: int, pgn: int)
    requires IsByte(src) && IsByte(dst) && 0 <= session < 16 && IsByte(count)
    ensures TellsCts(CtsFrame(src, dst, session, count, first, pgn), src, dst, session, count, first, pgn)
  {
    CmTells(7, src, dst, CTS, session, 0xFF_FFFF, first, count, 0, pgn);
  }

  lemma StatusTells(src: int, dst: int, session: int, size: int, segments: int, pgn: int)
    requires IsByte(src) && IsByte(dst) && 0 <= session < 16
    ensures TellsStatus(EomStatusFrame(src, dst, session, size, segments, pgn), src, dst, session, size, segments, pgn)
  {
    CmTells(7, src, dst, EOM_STATUS, session, size, segments, 0, 0, pgn);
  }

  lemma AckTells(src: int, dst: int, session: int, size: int, segments: int, pgn: int)
    requires IsByte(src) && IsByte(dst) && 0 <= session < 16
    ensures TellsAck(EomAckFrame(src, dst, session, size, segments, pgn), src, dst, session, size, segments, pgn)
  {
    CmTells(7, src, dst, EOM_ACK, session, size, segments, 0xFF, 0xFF, pgn);
  }

  lemma AbortTells(src: int, dst: int, session: int, reason: int, pgn: int)
    requires IsByte(src) && IsByte(dst) && 0 <= session < 16 && IsByte(reason)
    ensures TellsAbort(AbortFrame(src, dst, session, reason, pgn), src, dst, session, reason, pgn)
  {
    CmTells(7, src, dst, ABORT, session, 0xFF_FFFF, 0xFF_FFFF, 0xFF_FFFF, reason, pgn);
  }

  lemma SegmentTells(src: int, dst: int, session: int, number: int, chunk: seq<int>)
    requires IsByte(src) && IsByte(dst) && 0 <= session < 16 && |chunk| <= 60
    ensures CarriesSegment(DtFrame(src, dst, session, number, chunk), src, dst, session, number, chunk)
  {
    BytesOf(number);
    var d := [session * 16] + Three(number) + chunk;
    assert [session % 16 * 16] + Bytes(number, FIELD) + chunk == d;
    forall m | FdLength(m) && |d| <= m ensures FdLength(PaddedLength(|d|)) && PaddedLength(|d|) <= m {
      PaddedLengthIsLeast(|d|, m);
    }
    PaddedLengthIsLeast(|d|, 64);
    assert d[..4] == [session * 16] + Three(number) && d[4..4 + |chunk|] == chunk;
    var data := DtData(session, number, chunk).0;
    assert data[..|d|] == d;
    assert data[..4] == data[..|d|][..4] && data[4..4 + |chunk|] == data[..|d|][4..4 + |chunk|];
  }

  predicate Heard(f: Frame) {
    InRange(f.header) && IsBytes(f.data)
  }

  predicate HeardCm(f: Frame, kind: int) {
    Heard(f) && f.header.format == 77 && |f.data| >= 12 && KindIn(f.data) == kind
  }

  // ---- sending ----

  /** A broadcast is announced under its own PGN, a directed message under the PGN with a low byte of zero. */
  lemma StartTells(cfg: Config, payload: seq<int>, dst: int, src: int, priority: int, pgn: int, session: int,
      clock: real)
    requires IsByte(src) && IsByte(dst) && payload != [] && 0 <= session < 16 && cfg.Valid()
    ensures var (f, b) := Start(cfg, payload, dst, src, priority, pgn, session, clock);
            var n := b.num;
            && n == Segments(|payload|) && 60 * (n - 1) < |payload| <= 60 * n && b.size == |payload|
            && b.data == Chunks(payload)
            && b.priority == priority && b.session == session && b.src == src && b.dst == dst && b.next == 0
            && b.pgn == (if dst == 255 then pgn else pgn - pgn % 0x100)
            && (if dst == 255 then
                  && Tells(f, priority, src, 255, 4, session, |payload|, n, 0xFF, 0, pgn)
                  && b.state.SendingBam? && b.deadline == clock + cfg.bamInterval
                else
                  && Tells(f, priority, src, dst, 0, session, |payload|, n, Min(cfg.maxCmdt, n), 0, pgn - pgn % 0x100)
                  && b.state.WaitingCts? && b.deadline == clock + 1.25)
  {
    hide Tells, CmData;
    var n := Segments(|payload|);
    CmTells(priority, src, GLOBAL, BAM, session, |payload|, n, 0xFF, 0, pgn);
    CmTells(priority, src, dst, RTS, session, |payload|, n, Min(cfg.maxCmdt, n), 0, pgn - pgn % 0x100);
    assert IsByte(Min(cfg.maxCmdt, n));
  }

  /**
   A clear to send: for an unknown session it is refused and the number is free; zero
   segments mean half a second of patience and nothing else; otherwise the buffer is
   due at once, from the segment asked for and for as many as are asked for, exist and
   may be sent in a row.
   */
  lemma CtsIsObeyed(cfg: Config, buf: Option<SndBuf>, f: Frame, clock: real)
    requires HeardCm(f, 1)
    ensures var r, number := Answer(cfg, buf, f, clock), NumberIn(f.data);
            && r.out == []
            && (if buf.None? then
                  && r.buf.None? && r.release == FreeRts(number) && |r.sent| == 1
                  && TellsAbort(r.sent[0], f.header.specific, f.header.source, number, 2, ThreeIn(f.data, 9))
                else
                  && r.sent == [] && r.release.Keep? && r.buf.Some?
                  && var b, b1 := buf.value, r.buf.value;
                     var first := ThreeIn(f.data, 4);
                     if f.data[7] == 0 then b1 == b.(deadline := clock + 0.5)
                     else
                       && b1 == b.(deadline := clock, state := SendingRtsCts, next := first - 1, waitOn := b1.waitOn)
                       && b1.waitOn + 1 - b1.next
                          == Min(Min(Min(f.data[7], b.num), cfg.maxCmdt), b.num - (first - 1)))
  {
    hide CmData, Tells;
    FieldsIn(f.data);
    AbortTells(f.header.specific, f.header.source, NumberIn(f.data), 2, ThreeIn(f.data, 9));
  }

  /** The acknowledgement is handed to the subscribers as it came, and the buffer and its number go next. */
  lemma AckEndsTransfer(cfg: Config, buf: Option<SndBuf>, f: Frame, clock: real)
    requires HeardCm(f, 3)
    ensures var r, h, number := Answer(cfg, buf, f, clock), f.header, NumberIn(f.data);
            if buf.None? then
              && r.buf.None? && r.out == [] && r.release == FreeRts(number) && |r.sent| == 1
              && TellsAbort(r.sent[0], h.specific, h.source, number, 2, ThreeIn(f.data, 9))
            else
              && r.sent == [] && r.release.Keep?
              && r.out == [ToSubscribers(h.priority, ThreeIn(f.data, 9), h.source, h.specific, f.data)]
              && r.buf == Some(buf.value.(state := EomAckReceived, deadline := clock))
  {
    hide CmData, Tells;
    FieldsIn(f.data);
    AbortTells(f.header.specific, f.header.source, NumberIn(f.data), 2, ThreeIn(f.data, 9));
  }

  /** An abort from the peer ends a transfer that waits for a grant, silently. */
  lemma AbortEndsTransfer(cfg: Config, buf: Option<SndBuf>, f: Frame, clock: real)
    requires HeardCm(f, 15)
    ensures var r := Answer(cfg, buf, f, clock);
            && r.sent == [] && r.out == [] && r.release.Keep?
            && r.buf == if buf.Some? && buf.value.state.WaitingCts?
                        then Some(buf.value.(state := TransmissionFinished, deadline := clock)) else buf
  {
    FieldsIn(f.data);
  }

  lemma NotYetDue(cfg: Config, b: SndBuf, now: real, clock: real)
    requires SndWf(b) && (b.deadline == 0.0 || now < b.deadline)
    ensures SndJob(cfg, b, now, clock) == SndResult(Some(b), [], [], Keep)
  {
  }

  /** A sender that waits for a grant in vain tells its peer and frees the number. */
  lemma WaitingTimesOut(cfg: Config, b: SndBuf, now: real, clock: real)
    requires SndWf(b) && IsByte(b.src) && IsByte(b.dst) && 0.0 < b.deadline <= now && b.state.WaitingCts?
    ensures var r := SndJob(cfg, b, now, clock);
            && r.buf.None? && r.out == [] && r.release == FreeRts(b.session)
            && |r.sent| == 1 && TellsAbort(r.sent[0], b.src, b.dst, b.session, 3, b.pgn)
  {
    hide CmData, Tells;
    AbortTells(b.src, b.dst, b.session, 3, b.pgn);
  }

  /** With everything sent the buffer goes, acknowledged or not, and its number is free; an aborted one keeps it. */
  lemma FinishedGoes(cfg: Config, b: SndBuf, now: real, clock: real)
    requires SndWf(b) && 0.0 < b.deadline <= now
    requires b.state.WaitingEomAck? || b.state.EomAckReceived? || b.state.TransmissionFinished?
    ensures SndJob(cfg, b, now, clock)
         == SndResult(None, [], [], if b.state.TransmissionFinished? then Keep else FreeRts(b.session))
  {
  }

  /** A due broadcast sends its next segment and waits for the interval. */
  lemma BroadcastPass(cfg: Config, b: SndBuf, now: real, clock: real)
    requires SndWf(b) && IsByte(b.src) && IsByte(b.dst) && 0.0 < b.deadline <= now && b.state.SendingBam?
    requires |b.data[b.next]| <= 60
    ensures var r := SndJob(cfg, b, now, clock);
            && r.out == [] && r.release.Keep? && |r.sent| == 1 && r.buf.Some?
            && CarriesSegment(r.sent[0], b.src, b.dst, b.session, b.next + 1, b.data[b.next])
            && var b1 := r.buf.value;
               && b1 == b.(next := b.next + 1, deadline := clock + cfg.bamInterval, state := b1.state, data := b1.data)
               && b1.state == (if b.next + 1 < b.num then SendingBam else SendingEomStatus)
               && b1.data == b.data[b.next := b1.data[b.next]]
  {
    hide CarriesSegment, DtData;
    SegmentTells(b.src, b.dst, b.session, b.next + 1, b.data[b.next]);
  }

  /** The status of a broadcast is its last frame; the number is free then. */
  lemma StatusPass(cfg: Config, b: SndBuf, now: real, clock: real)
    requires SndWf(b) && IsByte(b.src) && IsByte(b.dst) && 0.0 < b.deadline <= now && b.state.SendingEomStatus?
    ensures var r := SndJob(cfg, b, now, clock);
            && r.buf.None? && r.out == [] && r.release == FreeBam(b.session)
            && |r.sent| == 1 && TellsStatus(r.sent[0], b.src, b.dst, b.session, b.size, b.num, b.pgn)
  {
    hide CmData, Tells;
    StatusTells(b.src, b.dst, b.session, b.size, b.num, b.pgn);
  }

  lemma GrantedPass(cfg: Config, b: SndBuf, now: real, clock: real)
    requires SndWf(b) && 0.0 < b.deadline <= now && b.state.SendingRtsCts?
    ensures SndJob(cfg, b, now, clock)
         == SndResult(Some(Burst(cfg, b, clock).0), Burst(cfg, b, clock).1, [], Keep)
  {
    hide Burst;
  }

  ghost predicate SegmentsInOrder(frames: seq<Frame>, b: SndBuf, n: nat)
    requires n <= |frames| && 0 <= b.next && b.next + n <= |b.data|
  {
    forall i :: 0 <= i < n ==>
      CarriesSegment(frames[i], b.src, b.dst, b.session, b.next + i + 1, b.data[b.next + i])
  }

  /** How many segments one pass sends: the rest of the window, or one with a segment interval. */
  function SentAtOnce(cfg: Config, b: SndBuf): int {
    if cfg.rtsInterval.Some? then 1 else b.waitOn + 1 - b.next
  }

  /**
   A window: consecutive segments up to the last one granted, and the status directly
   behind the last one of the message. Then the sender waits 3 s for the
   acknowledgement, behind another window 1.25 s, inside it for the interval.
   */
  lemma {:induction false} WindowIsSent(cfg: Config, b: SndBuf, clock: real)
    requires SndWf(b) && IsByte(b.src) && IsByte(b.dst) && 0 <= b.next <= b.waitOn < b.num && b.state.SendingRtsCts?
    requires forall i :: b.next <= i < b.num ==> |b.data[i]| <= 60
    ensures var (b1, frames) := Burst(cfg, b, clock);
            var n := SentAtOnce(cfg, b);
            && |frames| == n + (if b.next + n == b.num then 1 else 0) && SegmentsInOrder(frames, b, n)
            && (b.next + n == b.num ==> TellsStatus(frames[n], b.src, b.dst, b.session, b.size, b.num, b.pgn))
            && b1 == b.(next := b.next + n, state := b1.state, deadline := b1.deadline, data := b1.data)
            && (if b1.next == b.num then b1.state.WaitingEomAck? && b1.deadline == clock + 3.0
                else if b1.next > b.waitOn then b1.state.WaitingCts? && b1.deadline == clock + 1.25
                else b1.state.SendingRtsCts? && b1.deadline == clock + cfg.rtsInterval.value)
    decreases b.num - b.next
  {
    hide DtData, CarriesSegment, CmData, Tells;
    SegmentTells(b.src, b.dst, b.session, b.next + 1, b.data[b.next]);
    StatusTells(b.src, b.dst, b.session, b.size, b.num, b.pgn);
    if b.next < b.waitOn && cfg.rtsInterval.None? {
      var b0 := SendSegment(b).1;
      WindowIsSent(cfg, b0, clock);
      var frames := Burst(cfg, b0, clock).1;
      var first := SendSegment(b).0;
      var all := [first] + frames;
      var n := SentAtOnce(cfg, b);
      forall i | 0 <= i < n
        ensures CarriesSegment(all[i], b.src, b.dst, b.session, b.next + i + 1, b.data[b.next + i])
      {
        if i > 0 {
          assert CarriesSegment(frames[i - 1], b0.src, b0.dst, b0.session, b0.next + (i - 1) + 1,
              b0.data[b0.next + (i - 1)]);
          assert all[i] == frames[i - 1] && b0.data[b.next + i] == b.data[b.next + i];
        }
      }
    }
  }

  // ---- messages of the application ----

  /** Page and format as passed in; formats up to 239 have no specific part. */
  ghost predicate PgnIs(pgn: int, dataPage: int, pduFormat: int, low: int) {
    0 <= pgn < 0x2_0000 && pgn / 0x1_0000 == dataPage && pgn / 0x100 % 0x100 == pduFormat && pgn % 0x100 == low
  }

  /** What the group made of a short message says; the base format has no priority. */
  lemma GroupIs(dataPage: int, pduFormat: int, pduSpecific: int, priority: int, data: seq<int>,
                format: int, tos: int, tf: int)
    requires 0 <= dataPage < 2 && IsByte(pduFormat) && IsByte(pduSpecific) && |data| <= 60
    ensures var c := D.Group(dataPage, pduFormat, pduSpecific, priority, data, format, tos, tf);
            && PgnIs(c.pgn, dataPage, pduFormat, if pduFormat <= 239 then 0 else pduSpecific)
            && c.priority == (if format == 2 then 0 else priority % 8)
            && c.tos == tos % 8 && c.tf == tf % 8 && c.data == data
  {
    PgnFields(dataPage, pduFormat, pduSpecific);
    var pgn := PgnValue(dataPage, pduFormat, pduSpecific);
    ClearLow(pgn);
    hide PgnValue;
    ByteSteps(pgn);
  }

  lemma ClearLow(pgn: int)
    requires 0 <= pgn < 0x2_0000
    ensures var x := pgn - pgn % 0x100;
            0 <= x < 0x2_0000 && x % 0x100 == 0 && x / 0x100 == pgn / 0x100 && x / 0x1_0000 == pgn / 0x1_0000
  {
    ByteSteps(pgn);
    ByteSteps(pgn - pgn % 0x100);
  }

  /** The frame of one group: service header, payload, three zeros and 0xAA up to the least legal length. */
  ghost predicate CarriesGroup(f: Frame, tos: int, tf: int, dataPage: int, pduFormat: int, low: int, data: seq<int>) {
    && 4 + |data| <= |f.data| && FdLength(|f.data|) && (forall m :: FdLength(m) && 4 + |data| <= m ==> |f.data| <= m)
    && f.data[..4 + |data|] == [tos % 8 * 32 + tf % 8 * 4 + dataPage, pduFormat, low, |data|] + data
    && forall i :: 4 + |data| <= i < |f.data| ==> f.data[i] == if i < 7 + |data| then 0 else 0xAA
  }

  /**
   A short message sent at once: one frame, in the extended format addressed to the
   destination for formats up to 239 and to everybody for the others, that holds exactly
   this message; a receiver that parses it finds it under its PGN.
   */
  lemma ShortMessageArrives(v: D.State, w: D.State, slot: nat, dataPage: int, pduFormat: int, pduSpecific: int,
                            priority: int, src: int, data: seq<int>, format: int, tos: int, tf: int, clock: real)
    requires 0 <= dataPage < 2 && IsByte(pduFormat) && IsByte(pduSpecific) && IsByte(src) && 1 <= |data| <= 60
    requires D.ShortSent(v, w, D.Done, slot, D.Group(dataPage, pduFormat, pduSpecific, priority, data, format, tos, tf),
                         format, src, D.Destination(pduFormat, pduSpecific), 0.0, clock)
    ensures |w.sent| == |v.sent| + 1 && w == v.(sent := w.sent) && w.sent[..|v.sent|] == v.sent
    ensures var f, low := w.sent[|v.sent|], if pduFormat <= 239 then 0 else pduSpecific;
            && CarriesGroup(f, tos, tf, dataPage, pduFormat, low, data)
            && (if format == 2 then !f.extended && f.header.source == src
                else
                  && f.extended
                  && f.header == Header(0, 37, if pduFormat <= 239 then pduSpecific else 255, src, priority % 8))
            && (tos % 8 == 2 && tf % 8 == 0 ==>
                  var ps := M.Parse(f.data);
                  |ps| == 1 && ps[0].data == data && PgnIs(ps[0].pgn, dataPage, pduFormat, low))
  {
    hide M.Parse, D.Group, M.Pack;
    var c := D.Group(dataPage, pduFormat, pduSpecific, priority, data, format, tos, tf);
    GroupIs(dataPage, pduFormat, pduSpecific, priority, data, format, tos, tf);
    assert [c][1..] == [] && M.Size([]) == 0 && M.Size([c]) == 4 + |data|;
    assert D.ShortSent(v, w, D.Done, slot, c, format, src, D.Destination(pduFormat, pduSpecific), 0.0, clock);
    var f := M.MultiPgFrame(format, [c], src, D.Destination(pduFormat, pduSpecific));
    assert w == v.(sent := v.sent + [f]);
    assert M.LowestPriority([c], 7) == Min(c.priority, 7);
    GroupPacked(c);
    ByteSteps(c.pgn);
    if tos % 8 == 2 && tf % 8 == 0 {
      M.MultiPgRoundTrip([c]);
      assert M.Pdus([c]) == [M.Pdu(c.pgn, data)] by { assert M.Pdus([]) == []; }
    }
  }

  lemma GroupPacked(c: M.Cpg)
    requires M.Wf(c) && M.Size([c]) == 4 + |c.data|
    ensures var d := M.Pack([c]);
            && 4 + |c.data| <= |d| && FdLength(|d|) && (forall m :: FdLength(m) && 4 + |c.data| <= m ==> |d| <= m)
            && d[..4 + |c.data|]
               == [c.tos * 32 + c.tf * 4 + c.pgn / 0x1_0000 % 4, c.pgn / 0x100 % 0x100, c.pgn % 0x100, |c.data|]
                   + c.data
            && forall i :: 4 + |c.data| <= i < |d| ==> d[i] == if i < 7 + |c.data| then 0 else 0xAA
  {
    assert [c][1..] == [] && M.Body([]) == [] && M.Body([c]) == M.Service(c) + c.data;
    forall m | FdLength(m) && M.Size([c]) <= m ensures |M.Pack([c])| <= m {
      PaddedLengthIsLeast(M.Size([c]), m);
    }
    PaddedLengthIsLeast(M.Size([c]), 64);
  }

  /**
   A long message is announced to its destination, or to everybody if that is 255 or the
   format is one of 240..255, under the number taken and with its size.
   */
  lemma LongMessageIsAnnounced(cfg: Config, v: D.State, w: D.State, session: nat, dataPage: int, pduFormat: int,
                               pduSpecific: int, priority: int, src: int, data: seq<int>, clock: real)
    requires 0 <= dataPage < 2 && IsByte(pduFormat) && IsByte(pduSpecific) && IsByte(src) && |data| > 60
    requires cfg.Valid() && |v.flags.bam| == 4 && |v.flags.rts| == 8
    requires D.LongSent(cfg, v, w, D.Done, session, D.LongDestination(pduFormat, pduSpecific), src, priority,
                        PgnValue(dataPage, pduFormat, pduSpecific), data, clock)
    ensures |w.sent| == |v.sent| + 1 && w.sent[..|v.sent|] == v.sent && |w.sent[|v.sent|].data| == 12
    ensures var f, n := w.sent[|v.sent|], Segments(|data|);
            var pgn, toAll := ThreeIn(f.data, 9), pduSpecific == 255 || pduFormat >= 240;
            && PgnIs(pgn, dataPage, pduFormat, if toAll then pduSpecific else 0)
            && (if toAll then Tells(f, priority, src, 255, 4, session, |data|, n, 0xFF, 0, pgn)
                else Tells(f, priority, src, pduSpecific, 0, session, |data|, n, Min(cfg.maxCmdt, n), 0, pgn))
  {
    hide PgnValue, Start, Segments, Tells;
    var pgn, dst := PgnValue(dataPage, pduFormat, pduSpecific), D.LongDestination(pduFormat, pduSpecific);
    var n, f := Segments(|data|), w.sent[|v.sent|];
    PgnFields(dataPage, pduFormat, pduSpecific);
    ClearLow(pgn);
    StartTells(cfg, data, dst, src, priority, pgn, session, clock);
    if dst == 255 { TellsPgn(f, priority, src, 255, 4, session, |data|, n, 0xFF, 0, pgn); }
    else { TellsPgn(f, priority, src, dst, 0, session, |data|, n, Min(cfg.maxCmdt, n), 0, pgn - pgn % 0x100); }
    ByteSteps(pgn);
  }

  lemma TellsPgn(f: Frame, priority: int, src: int, dst: int, kind: int, session: int, size: int, segments: int,
                 byte7: int, byte8: int, pgn: int)
    requires Tells(f, priority, src, dst, kind, session, size, segments, byte7, byte8, pgn) && 0 <= pgn < 0x2_0000
    ensures |f.data| == 12 && ThreeIn(f.data, 9) == pgn
  {
    ThreeBack(pgn);
  }

  lemma ThreeBack(x: int)
    requires 0 <= x < 0x2_0000
    ensures x % 0x100 + x / 0x100 % 0x100 * 0x100 + x / 0x1_0000 % 0x100 * 0x1_0000 == x
  {
    ByteSteps(x);
  }

  // ---- receiving ----

  /**
   A request to send is granted from the first segment, within what both sides can
   take, unless the session is open: then the peer is told, and the session goes on.
   */
  lemma RtsIsAnswered(cfg: Config, buf: Option<RcvBuf>, f: Frame, clock: real)
    requires HeardCm(f, 0) && cfg.Valid()
    ensures var r, src, dst, number := Receive(cfg, buf, f, clock), f.header.source, f.header.specific,
              NumberIn(f.data);
            var window, pgn := Min(cfg.maxCmdt, Min(f.data[7], ThreeIn(f.data, 4))), ThreeIn(f.data, 9);
            && |r.sent| == 1 && r.out == [] && r.error.None? && r.buf.Some?
            && (if buf.Some? then
                  r.buf == buf && r.release == FreeRts(number) && TellsAbort(r.sent[0], dst, src, number, 1, pgn)
                else
                  && r.release.Keep? && TellsCts(r.sent[0], dst, src, number, window, 1, pgn)
                  && r.buf.value == RcvBuf(pgn, number, ThreeIn(f.data, 1), ThreeIn(f.data, 4), 1, window,
                      Some(window), [],
                                           r.buf.value.deadline, src, dst))
  {
    hide CmData, Tells;
    FieldsIn(f.data);
    var src, dst, number := f.header.source, f.header.specific, NumberIn(f.data);
    AbortTells(dst, src, number, 1, ThreeIn(f.data, 9));
    assert IsByte(f.data[7]) && 0 <= ThreeIn(f.data, 4);
    CtsTells(dst, src, number, Min(cfg.maxCmdt, Min(f.data[7], ThreeIn(f.data, 4))), 1, ThreeIn(f.data, 9));
  }

  /** A broadcast announcement opens a session, or closes the one that is open. */
  lemma BamOpens(cfg: Config, buf: Option<RcvBuf>, f: Frame, clock: real)
    requires HeardCm(f, 4)
    ensures var r, number := Receive(cfg, buf, f, clock), NumberIn(f.data);
            && r.sent == [] && r.out == [] && r.error.None?
            && (if buf.Some? then r.buf.None? && r.release == FreeBam(number)
                else
                  && r.release.Keep? && r.buf.Some?
                  && r.buf.value == RcvBuf(ThreeIn(f.data, 9), number, ThreeIn(f.data, 1), ThreeIn(f.data, 4), 1, 0,
                      None, [],
                                           r.buf.value.deadline, f.header.source, f.header.specific))
  {
    FieldsIn(f.data);
  }

  /**
   The status closes the session. If it names the size and number of segments that were
   announced, what was gathered is delivered, and acknowledged if it is directed.
   */
  lemma StatusCloses(cfg: Config, buf: Option<RcvBuf>, f: Frame, clock: real)
    requires HeardCm(f, 2)
    ensures var r, src, dst, number := Receive(cfg, buf, f, clock), f.header.source, f.header.specific,
              NumberIn(f.data);
            && r.buf.None? && r.error.None? && r.release == FreeRts(number)
            && (if buf.None? then r.sent == [] && r.out == []
                else
                  var b := buf.value;
                  if b.size == ThreeIn(f.data, 1) && b.num == ThreeIn(f.data, 4) then
                    && r.out == [if b.pgn == 65240 then CommandedAddress(src, dst, b.data)
                                 else ToSubscribers(f.header.priority, b.pgn, src, dst, b.data)]
                    && (if dst == 255 then r.sent == []
                        else |r.sent| == 1 && TellsAck(r.sent[0], dst, src, number, b.size, b.num, b.pgn))
                  else r.out == [] && |r.sent| == 1 && TellsAbort(r.sent[0], dst, src, number, 2, b.pgn))
  {
    hide CmData, Tells;
    FieldsIn(f.data);
    if buf.Some? {
      var b, src, dst, number := buf.value, f.header.source, f.header.specific, NumberIn(f.data);
      AckTells(dst, src, number, b.size, b.num, b.pgn);
      AbortTells(dst, src, number, 2, b.pgn);
    }
  }

  /** Any segment but the one expected is ignored, whoever sends it. */
  lemma OtherSegment(cfg: Config, buf: Option<RcvBuf>, f: Frame, clock: real)
    requires Heard(f) && f.header.format == 78 && |f.data| > 4
    requires ThreeIn(f.data, 1) == 0 || buf.None? || buf.value.next != ThreeIn(f.data, 1)
    ensures Receive(cfg, buf, f, clock) == RcvResult(buf, [], [], Keep, None)
  {
    ThreeRead(f.data, 1);
  }

  /**
   The segment expected adds its bytes, cut to the announced size, and nothing is
   delivered before the status; with the last segment of a window the next one is
   granted; a session that no RTS opened has no window to grant.
   */
  lemma ExpectedSegment(cfg: Config, b: RcvBuf, f: Frame, clock: real)
    requires Heard(f) && f.header.format == 78 && |f.data| > 4 && b.next == ThreeIn(f.data, 1) > 0 && b.size >= 0
    requires b.window.Some? ==> IsByte(b.window.value) && b.border <= b.num
    ensures var r, src, dst := Receive(cfg, Some(b), f, clock), f.header.source, f.header.specific;
            var all := b.data + f.data[4..];
            && r.out == [] && r.release.Keep? && r.buf.Some?
            && var b1 := r.buf.value;
               && b1 == b.(data := if |all| >= b.size then all[..b.size] else all, next := b.next + 1,
                           border := b1.border, deadline := b1.deadline)
               && (if |all| >= b.size || dst == 255 || (b.window.Some? && b.next < b.border) then
                     r.sent == [] && r.error.None? && b1.border == b.border
                   else if b.window.None? then
                     r.sent == [] && r.error == Some(KeyError) && b1.border == b.border && b1.deadline == b.deadline
                   else
                     var count := Min(b.window.value, b.num - b.border);
                     && r.error.None? && b1.border == b.border + count && |r.sent| == 1
                     && TellsCts(r.sent[0], dst, src, NumberIn(f.data), count, b.border + 1, b.pgn))
  {
    hide CmData, Tells;
    ThreeRead(f.data, 1);
    assert IsByte(f.data[0]);
    var src, dst := f.header.source, f.header.specific;
    if b.window.Some? {
      CtsTells(dst, src, NumberIn(f.data), Min(b.window.value, b.num - b.border), b.border + 1, b.pgn);
    }
  }

  /**
   Having granted segments the receiver waits 1.25 s for the first of them, otherwise
   0.75 s for the next frame; only a complete broadcast goes on waiting as it did.
   */
  lemma ReceiverWaits(cfg: Config, buf: Option<RcvBuf>, f: Frame, clock: real)
    requires var r := Receive(cfg, buf, f, clock); r.buf.Some? && r.buf != buf && r.error.None?
    ensures var r := Receive(cfg, buf, f, clock);
            || r.buf.value.deadline == clock + (if r.sent == [] then 0.75 else 1.25)
            || (&& buf.Some? && f.header.format == 78 && f.header.specific == 255
                && |buf.value.data + f.data[4..]| >= buf.value.size && r.buf.value.deadline == buf.value.deadline)
  {
    hide CmData, AbortFrame, CtsFrame, EomAckFrame;
  }

  /** While segments are missing, and in every directed session, it is never the third case. */
  lemma ReceiverWaitsAnew(cfg: Config, buf: Option<RcvBuf>, f: Frame, clock: real)
    requires var r := Receive(cfg, buf, f, clock); r.buf.Some? && r.buf != buf && r.error.None?
    requires buf.None? || f.header.format != 78 || f.header.specific != 255
             || |f.data| <= 4 || |buf.value.data + f.data[4..]| < buf.value.size
    ensures var r := Receive(cfg, buf, f, clock);
            r.buf.value.deadline == clock + if r.sent == [] then 0.75 else 1.25
  {
    hide CmData, AbortFrame, CtsFrame, EomAckFrame;
  }

  /** A receiver that waits in vain closes the session at its deadline, not before, and tells a directed sender. */
  lemma ReceiverTimesOut(b: RcvBuf, now: real)
    requires IsByte(b.src) && IsByte(b.dst) && 0 <= b.session < 16 && b.deadline > 0.0
    ensures var r := RcvJob(Some(b), now);
            && r.out == []
            && (if now < b.deadline then r.buf == Some(b) && r.sent == [] && r.release.Keep?
                else
                  && r.buf.None? && r.release == (if b.dst == 255 then FreeBam(b.session) else FreeRts(b.session))
                  && (if b.dst == 255 then r.sent == []
                      else |r.sent| == 1 && TellsAbort(r.sent[0], b.dst, b.src, b.session, 3, b.pgn)))
  {
    hide CmData, Tells;
    AbortTells(b.dst, b.src, b.session, 3, b.pgn);
  }

  /** Which frames the layer takes part in, and which of its buffers they are about. */
  lemma FramesAreRouted(f: Frame)
    requires Heard(f) && f.header.dataPage == 0 && (f.header.format == 77 || f.header.format == 78)
    ensures IsTransport(f.header)
    ensures D.ForReceiver(f) <==>
            if f.header.format == 78 then |f.data| > 4 else |f.data| >= 12 && KindIn(f.data) in {0, 2, 4}
    ensures D.ForSender(f) <==> f.header.format == 77 && |f.data| >= 12 && KindIn(f.data) in {1, 3, 15}
    ensures |f.data| > 4 ==>
              && D.RcvKey(f) == NumberIn(f.data) * 0x1_0000 + f.header.source * 0x100 + f.header.specific
              && D.SndKey(f) == NumberIn(f.data) * 0x1_0000 + f.header.specific * 0x100 + f.header.source
  {
    assert |f.data| > 0 ==> IsByte(f.data[0]);
  }

  // ---- no session outlives its peer ----

  ghost predicate WithinReach(rcv: D.RcvBuffers, clock: real) {
    forall k :: k in rcv ==> 0.0 < rcv[k].deadline <= clock + 1.25
  }

  ghost predicate Until(es: seq<Event>, clock: real) {
    forall e :: e in es ==> Valid(e) && (e.Arrive? ==> 0.0 < e.clock <= clock)
  }

  lemma AnyReach(cfg: Config, buf: Option<RcvBuf>, f: Frame, at: real, clock: real)
    requires Receive(cfg, buf, f, at).buf.Some? && 0.0 < at <= clock
    requires buf.Some? ==> 0.0 < buf.value.deadline <= clock + 1.25
    ensures 0.0 < Receive(cfg, buf, f, at).buf.value.deadline <= clock + 1.25
  {
    hide CmData, AbortFrame, CtsFrame, EomAckFrame, Take;
  }

  lemma StepWithinReach(cfg: Config, rcv: D.RcvBuffers, e: Event, clock: real)
    requires Valid(e) && WithinReach(rcv, clock) && (e.Arrive? ==> 0.0 < e.clock <= clock)
    ensures WithinReach(React(cfg, rcv, e).0, clock)
  {
    hide Hash, Receive;
    if e.Arrive? && |e.frame.data| > 4 {
      var buf := Get(rcv, D.RcvKey(e.frame));
      if Receive(cfg, buf, e.frame, e.clock).buf.Some? { AnyReach(cfg, buf, e.frame, e.clock, clock); }
    }
  }

  lemma {:induction false} RunWithinReach(cfg: Config, rcv: D.RcvBuffers, es: seq<Event>, clock: real)
    requires Until(es, clock) && WithinReach(rcv, clock)
    ensures WithinReach(Run(cfg, rcv, es).0, clock)
    decreases |es|
  {
    hide React, WithinReach;
    if es != [] {
      assert es[0] in es;
      StepWithinReach(cfg, rcv, es[0], clock);
      RunWithinReach(cfg, React(cfg, rcv, es[0]).0, es[1..], clock);
    }
  }

  /** Nothing arrives for the session, and the job thread gets its turn at `due` or later. */
  ghost predicate Silent(es: seq<Event>, id: Id, due: real) {
    && (forall e :: e in es ==> Valid(e) && (e.Arrive? ==> !Concerns(e, id)))
    && exists e :: e in es && e.Pass? && e.now >= due
  }

  lemma {:induction false} StaysClosed(cfg: Config, rcv: D.RcvBuffers, es: seq<Event>, id: Id)
    requires (forall e :: e in es ==> Valid(e) && (e.Arrive? ==> !Concerns(e, id))) && id.Valid()
    requires Get(rcv, id.Key()).None?
    ensures Get(Run(cfg, rcv, es).0, id.Key()).None?
    decreases |es|
  {
    hide Hash, Receive, React, Concerns;
    if es != [] {
      assert es[0] in es;
      if es[0].Arrive? { OtherStep(cfg, rcv, es[0], id); } else { PassDrops(cfg, rcv, es[0], id); }
      StaysClosed(cfg, React(cfg, rcv, es[0]).0, es[1..], id);
    }
  }

  lemma PassDrops(cfg: Config, rcv: D.RcvBuffers, e: Event, id: Id)
    requires e.Pass?
    ensures var k, left := id.Key(), React(cfg, rcv, e).0;
            Get(left, k) == if k in rcv && (rcv[k].deadline == 0.0 || e.now < rcv[k].deadline) then Some(rcv[k])
                else None
  {
    hide Hash;
  }

  lemma {:induction false} SilenceCloses(cfg: Config, rcv: D.RcvBuffers, es: seq<Event>, id: Id, due: real)
    requires Silent(es, id, due) && id.Valid()
    requires Get(rcv, id.Key()).Some? ==> 0.0 < rcv[id.Key()].deadline <= due
    ensures Get(Run(cfg, rcv, es).0, id.Key()).None?
    decreases |es|
  {
    hide Hash, Receive, React, Concerns;
    var e, rest := es[0], es[1..];
    assert e in es && es == [e] + rest;
    var next := React(cfg, rcv, e).0;
    if e.Arrive? { OtherStep(cfg, rcv, e, id); } else { PassDrops(cfg, rcv, e, id); }
    if e.Pass? && e.now >= due {
      StaysClosed(cfg, next, rest, id);
    } else {
      var p :| p in es && p.Pass? && p.now >= due;
      assert p in rest;
      SilenceCloses(cfg, next, rest, id, due);
    }
  }

  lemma {:induction false} RunOn(cfg: Config, rcv: D.RcvBuffers, es: seq<Event>, more: seq<Event>)
    requires (forall e :: e in es ==> Valid(e)) && forall e :: e in more ==> Valid(e)
    ensures Run(cfg, rcv, es + more).0 == Run(cfg, Run(cfg, rcv, es).0, more).0
    ensures Calm(cfg, rcv, es + more) <==> Calm(cfg, rcv, es) && Calm(cfg, Run(cfg, rcv, es).0, more)
    decreases |es|
  {
    hide React;
    if es == [] {
      assert es + more == more;
    } else {
      assert (es + more)[1..] == es[1..] + more;
      RunOn(cfg, React(cfg, rcv, es[0]).0, es[1..], more);
    }
  }

  /**
   Whatever happened up to `clock`, as long as no pass raises: when a sender falls
   silent, its session is closed by the first pass 1.25 s later at the latest, and its
   next request to send with the same number is granted.
   */
  lemma SilentSenderIsFreed(cfg: Config, es: seq<Event>, more: seq<Event>, clock: real, f: Frame, again: real)
    requires Until(es, clock) && HeardCm(f, 0) && cfg.Valid()
    requires Silent(more, Id(NumberIn(f.data), f.header.source, f.header.specific), clock + 1.25)
    requires (forall e :: e in es + more ==> Valid(e)) && Calm(cfg, map[], es + more)
    ensures var rcv := Run(cfg, map[], es + more).0;
            var key := Hash(NumberIn(f.data), f.header.source, f.header.specific);
            var r := Receive(cfg, Get(rcv, key), f, again);
            && Get(rcv, key).None? && D.RcvKey(f) == key && r.buf.Some? && |r.sent| == 1
            && TellsCts(r.sent[0], f.header.specific, f.header.source, NumberIn(f.data),
                        Min(cfg.maxCmdt, Min(f.data[7], ThreeIn(f.data, 4))), 1, ThreeIn(f.data, 9))
  {
    hide Receive, Hash, Run, TellsCts, Calm, Silent;
    var id := Id(NumberIn(f.data), f.header.source, f.header.specific);
    FieldsIn(f.data);
    assert IsByte(f.data[0]);
    RunWithinReach(cfg, map[], es, clock);
    ValidParts(es, more, id, clock + 1.25);
    RunOn(cfg, map[], es, more);
    SilenceCloses(cfg, Run(cfg, map[], es).0, more, id, clock + 1.25);
    RtsIsAnswered(cfg, None, f, again);
  }

  lemma ValidParts(es: seq<Event>, more: seq<Event>, id: Id, due: real)
    requires Silent(more, id, due)
    ensures forall e :: e in more ==> Valid(e)
  {
  }

  /** A directed transfer without an answer ends at its deadline, with one abort, whatever passes there are. */
  lemma {:induction false} SilentReceiverIsGivenUp(cfg: Config, b: SndBuf, passes: seq<JobPass>)
    requires SndWf(b) && IsByte(b.src) && IsByte(b.dst) && 0.0 < b.deadline && b.state.WaitingCts?
    ensures var (b1, frames) := L.PassFrames(cfg, Some(b), passes);
            if forall p :: p in passes ==> p.now < b.deadline then b1 == Some(b) && frames == []
            else b1.None? && |frames| == 1 && TellsAbort(frames[0], b.src, b.dst, b.session, 3, b.pgn)
    decreases |passes|
  {
    hide TellsAbort, SndJob;
    if passes != [] {
      var p := passes[0];
      assert passes == [p] + passes[1..];
      if p.now < b.deadline {
        NotYetDue(cfg, b, p.now, p.clock);
        SilentReceiverIsGivenUp(cfg, b, passes[1..]);
      } else {
        WaitingTimesOut(cfg, b, p.now, p.clock);
        L.PassFramesGone(cfg, passes[1..]);
      }
    }
  }
}
