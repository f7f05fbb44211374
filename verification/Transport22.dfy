/**
 The J1939-22 transport protocol for CAN FD, one buffer at a time: 60-byte
 segments, numbered sessions, an explicit end-of-message status.
 */
module Transport22 {
  import opened Common
  import opened Wire

  const RTS := 0
  const CTS := 1
  const EOM_STATUS := 2
  const EOM_ACK := 3
  const BAM := 4
  const ABORT := 15

  const BUSY := 1
  const RESOURCES := 2
  const TIMEOUT := 3

  const TH := 0.5
  const T1 := 0.75
  const T2 := 1.25
  const T3 := 1.25
  const T5 := 3.0

  /** Bytes of the size, segment number and PGN fields. */
  const FIELD: nat := 3

  datatype SndState =
    | WaitingCts | SendingRtsCts | SendingBam | SendingEomStatus
    | WaitingEomAck | EomAckReceived | TransmissionFinished

  /** One entry of `_snd_buffer`; `data` holds the stored chunks. */
  datatype SndBuf = SndBuf(
    pgn: int, priority: int, session: int, size: int, num: int, data: seq<seq<int>>, state: SndState,
    deadline: real, src: int, dst: int, next: int, waitOn: int)

  /** One entry of `_rcv_buffer`; `window` (and with it `border`) is only stored for an RTS. */
  datatype RcvBuf = RcvBuf(
    pgn: int, session: int, size: int, num: int, next: int, border: int, window: Option<int>,
    data: seq<int>, deadline: real, src: int, dst: int)

  /** The session flag a handler gives back, if any. */
  datatype Release = Keep | FreeRts(session: int) | FreeBam(session: int)

  datatype RcvResult = RcvResult(
    buf: Option<RcvBuf>, sent: seq<Frame>, out: seq<Delivery>, release: Release, error: Option<Error>)

  datatype SndResult = SndResult(
    buf: Option<SndBuf>, sent: seq<Frame>, out: seq<Delivery>, release: Release)

  /** `_buffer_hash` */
  function Hash(session: int, src: int, dst: int): int {
    session % 16 * 0x1_0000 + src % 0x100 * 0x100 + dst % 0x100
  }

  lemma HashInjective(n1: int, s1: int, d1: int, n2: int, s2: int, d2: int)
    requires IsByte(s1) && IsByte(d1) && IsByte(s2) && IsByte(d2) && 0 <= n1 < 16 && 0 <= n2 < 16
    ensures Hash(n1, s1, d1) == Hash(n2, s2, d2) <==> n1 == n2 && s1 == s2 && d1 == d2
  {
    Unhash(n1, s1, d1);
    Unhash(n2, s2, d2);
  }

  /** A key determines what it was made from. */
  lemma Unhash(n: int, s: int, d: int)
    requires IsByte(s) && IsByte(d) && 0 <= n < 16
    ensures var h := Hash(n, s, d); h / 0x1_0000 == n && h / 0x100 % 0x100 == s && h % 0x100 == d
  {
    assert Hash(n, s, d) == (n * 0x100 + s) * 0x100 + d;
    hide Hash;
    LowByte(n * 0x100 + s, d);
    LowByte(n, s);
    ByteSteps(Hash(n, s, d));
  }

  function Repeat(x: int, n: nat): (r: seq<int>)
    ensures |r| == n && forall i :: 0 <= i < n ==> r[i] == x
  {
    seq(n, i => x)
  }

  /** Payload lengths a CAN FD frame can have. */
  predicate FdLength(n: int) {
    0 <= n <= 8 || n == 12 || n == 16 || n == 20 || n == 24 || n == 32 || n == 48 || n == 64
  }

  /** `_LUT_FD_DLC` */
  function FdLengthTable(): (t: seq<int>)
    ensures |t| == 65
  {
    [0, 1, 2, 3, 4, 5, 6, 7, 8] + Repeat(12, 4) + Repeat(16, 4) + Repeat(20, 4) + Repeat(24, 4)
    + Repeat(32, 8) + Repeat(48, 16) + Repeat(64, 16)
  }

  function PaddedLength(n: int): (r: int)
    requires 0 <= n <= 64
    ensures n <= r <= 64
  {
    FdLengthTable()[n]
  }

  /** The table pads to the least legal length. */
  lemma PaddedLengthIsLeast(n: int, m: int)
    requires 0 <= n <= 64 && FdLength(m) && n <= m
    ensures FdLength(PaddedLength(n)) && PaddedLength(n) <= m
  {
  }

  /** Number of segments of a message. */
  function Segments(size: int): int {
    size / 60 + (if size % 60 != 0 then 1 else 0)
  }

  function Chunk(data: seq<int>, i: nat): seq<int> {
    var lo := Min(60 * i, |data|);
    var hi := Min(60 * i + 60, |data|);
    data[lo..hi]
  }

  /** The list comprehension of `send_pgn`. */
  function Chunks(data: seq<int>): (r: seq<seq<int>>)
    ensures |r| == Segments(|data|)
  {
    seq(Segments(|data|), i requires 0 <= i < Segments(|data|) => Chunk(data, i))
  }

  // ---- frames ----

  function CmData(kind: int, session: int, size: int, segments: int, byte7: int, byte8: int, pgn: int): seq<int> {
    [kind % 16 + session % 16 * 16] + Bytes(size, FIELD) + Bytes(segments, FIELD) + [byte7 % 0x100, byte8 % 0x100]
        + Bytes(pgn, FIELD)
  }

  function CmFrame(priority: int, src: int, dst: int, data: seq<int>): Frame {
    PduFrame(PF_FD_TP_CM, priority, src, dst, data)
  }

  function AbortFrame(src: int, dst: int, session: int, reason: int, pgn: int): Frame {
    CmFrame(7, src, dst, CmData(ABORT, session, 0xFF_FFFF, 0xFF_FFFF, 0xFF_FFFF, reason, pgn))
  }

  function RtsFrame(priority: int, src: int, dst: int, session: int, pgn: int, size: int, num: int, maxNum: int): Frame
  {
    CmFrame(priority, src, dst, CmData(RTS, session, size, num, maxNum, 0, pgn))
  }

  function CtsFrame(src: int, dst: int, session: int, num: int, next: int, pgn: int): Frame {
    CmFrame(7, src, dst, CmData(CTS, session, 0xFF_FFFF, next, num, 0, pgn))
  }

  function EomStatusFrame(src: int, dst: int, session: int, size: int, num: int, pgn: int): Frame {
    CmFrame(7, src, dst, CmData(EOM_STATUS, session, size, num, 0, 0, pgn))
  }

  function EomAckFrame(src: int, dst: int, session: int, size: int, num: int, pgn: int): Frame {
    CmFrame(7, src, dst, CmData(EOM_ACK, session, size, num, 0xFF, 0xFF, pgn))
  }

  function BamFrame(priority: int, src: int, session: int, pgn: int, size: int, num: int): Frame {
    CmFrame(priority, src, GLOBAL, CmData(BAM, session, size, num, 0xFF, 0, pgn))
  }

  /**
   `__send_tp_dt`: the header is inserted into the stored chunk itself, and a
   short one is padded in place; the result is the frame data and what is stored now.
   */
  function DtData(session: int, segment: int, stored: seq<int>): (r: (seq<int>, seq<int>)) {
    var d := [session % 16 * 16] + Bytes(segment, FIELD) + stored;
    if |d| >= 64 then (d[..64], d)
    else
      var padded := d + Repeat(255, PaddedLength(|d|) - |d|);
      (padded, padded)
  }

  function DtFrame(src: int, dst: int, session: int, segment: int, stored: seq<int>): Frame {
    PduFrame(PF_FD_TP_DT, 7, src, dst, DtData(session, segment, stored).0)
  }

  // ---- sending side ----

  ghost predicate SndWf(b: SndBuf) {
    && 1 <= b.num == |b.data| && -1 <= b.next
    && (b.state.SendingBam? ==> 0 <= b.next < b.num)
    && 0 <= b.session < 8
    && (b.state.SendingBam? || b.state.SendingEomStatus? ==> b.session < 4)
  }

  /** Announcement and send buffer of a message of more than 60 bytes. */
  function Start(cfg: Config, data: seq<int>, dst: int, src: int, priority: int, pgn: int,
                 session: int, clock: real): (r: (Frame, SndBuf))
  {
    var size, num := |data|, Segments(|data|);
    if dst == GLOBAL then
      (BamFrame(priority, src, session, pgn, size, num),
       SndBuf(pgn, priority, session, size, num, Chunks(data), SendingBam, clock + cfg.bamInterval,
              src, GLOBAL, 0, 0))
    else
      var pgn0 := pgn - pgn % 0x100;
      (RtsFrame(priority, src, dst, session, pgn0, size, num, Min(cfg.maxCmdt, num)),
       SndBuf(pgn0, priority, session, size, num, Chunks(data), WaitingCts, clock + T3, src, dst, 0, 0))
  }

  /** The fields of a connection management frame. */
  datatype Cm = Cm(kind: int, session: int, size: int, segments: int, byte7: int, pgn: int)

  predicate Encodable(m: Cm) {
    && 0 <= m.kind < 16 && 0 <= m.session < 16 && 0 <= m.size < 0x100_0000 && 0 <= m.segments < 0x100_0000
    && IsByte(m.byte7) && 0 <= m.pgn < 0x100_0000
  }

  function Decode(data: seq<int>): Cm
    requires |data| >= 12
  {
    Cm(data[0] % 16, data[0] / 16 % 16, LittleEndian(data[1..4]), LittleEndian(data[4..7]), data[7],
       LittleEndian(data[9..12]))
  }

  lemma DecodeRoundTrip(m: Cm, byte8: int)
    requires Encodable(m)
    ensures var data := CmData(m.kind, m.session, m.size, m.segments, m.byte7, byte8, m.pgn);
            |data| == 12 && Decode(data) == m
  {
    var data := CmData(m.kind, m.session, m.size, m.segments, m.byte7, byte8, m.pgn);
    assert data[1..4] == Bytes(m.size, FIELD) && data[4..7] == Bytes(m.segments, FIELD)
        && data[9..12] == Bytes(m.pgn, FIELD);
    FieldRoundTrip3(m.size);
    FieldRoundTrip3(m.segments);
    FieldRoundTrip3(m.pgn);
    NibbleRoundTrip(m.kind, m.session);
  }

  lemma NibbleRoundTrip(kind: int, session: int)
    requires 0 <= kind < 16 && 0 <= session < 16
    ensures kind % 16 + session % 16 * 16 == kind + session * 16
    ensures (kind + session * 16) % 16 == kind && (kind + session * 16) / 16 % 16 == session
  {
  }

  lemma FieldRoundTrip3(x: int)
    requires 0 <= x < 0x100_0000
    ensures LittleEndian(Bytes(x, FIELD)) == x
  {
    assert Power256(FIELD) == 0x100_0000 by { assert Power256(2) == 0x1_0000 && Power256(1) == 0x100; }
    FieldRoundTrip(x, FIELD);
  }

  /** CTS received by `dst` from `src`. */
  function OnCts(cfg: Config, buf: Option<SndBuf>, src: int, dst: int, m: Cm, clock: real): SndResult {
    if buf.None? then
      SndResult(None, [AbortFrame(dst, src, m.session, RESOURCES, m.pgn)], [], FreeRts(m.session))
    else if m.byte7 == 0 then
      SndResult(Some(buf.value.(deadline := clock + TH)), [], [], Keep)
    else
      var b := buf.value;
      var next := m.segments - 1;
      var n := Min(Min(Min(m.byte7, b.num), cfg.maxCmdt), b.num - next);
      SndResult(Some(b.(next := next, waitOn := next + n - 1, state := SendingRtsCts, deadline := clock)), [], [], Keep)
  }

  function OnEomAck(buf: Option<SndBuf>, priority: int, src: int, dst: int, m: Cm, data: seq<int>,
      clock: real): SndResult
  {
    if buf.None? then
      SndResult(None, [AbortFrame(dst, src, m.session, RESOURCES, m.pgn)], [], FreeRts(m.session))
    else
      SndResult(Some(buf.value.(state := EomAckReceived, deadline := clock)), [],
                [ToSubscribers(priority, m.pgn, src, dst, data)], Keep)
  }

  function OnAbort(buf: Option<SndBuf>, clock: real): SndResult {
    if buf.Some? && buf.value.state.WaitingCts? then
      SndResult(Some(buf.value.(state := TransmissionFinished, deadline := clock)), [], [], Keep)
    else
      SndResult(buf, [], [], Keep)
  }

  /** Python's index -1 is the last element. */
  function At(b: SndBuf, package: int): int
    requires SndWf(b) && -1 <= package < b.num
  {
    if package == -1 then b.num - 1 else package
  }

  /** Sends segment `b.next`: the frame, and the buffer with its stored chunk changed. */
  function SendSegment(b: SndBuf): (r: (Frame, SndBuf))
    requires SndWf(b) && b.next < b.num
  {
    var i := At(b, b.next);
    (DtFrame(b.src, b.dst, b.session, b.next + 1, b.data[i]),
     b.(data := b.data[i := DtData(b.session, b.next + 1, b.data[i]).1], next := b.next + 1))
  }

  /** The inner loop of `async_job_thread`: segments sent in one pass inside a window. */
  function Burst(cfg: Config, b: SndBuf, clock: real): (r: (SndBuf, seq<Frame>))
    requires SndWf(b) && b.state.SendingRtsCts?
    ensures SndWf(r.0) && !r.0.state.SendingBam? && !r.0.state.SendingEomStatus?
    decreases b.num - b.next
  {
    if b.next >= b.num then (b, [])
    else
      var (frame, b1) := SendSegment(b);
      if b1.next == b.num then
        (b1.(deadline := clock + T5, state := WaitingEomAck),
         [frame, EomStatusFrame(b.src, b.dst, b.session, b.size, b.num, b.pgn)])
      else if b.next == b.waitOn then
        (b1.(state := WaitingCts, deadline := clock + T3), [frame])
      else if cfg.rtsInterval.Some? then
        (b1.(deadline := clock + cfg.rtsInterval.value), [frame])
      else
        var (b2, frames) := Burst(cfg, b1, clock);
        (b2, [frame] + frames)
  }

  /** One pass over one send buffer. */
  function SndJob(cfg: Config, b: SndBuf, now: real, clock: real): (r: SndResult)
    requires SndWf(b)
    ensures r.buf.Some? ==> SndWf(r.buf.value)
    ensures r.out == []
  {
    if b.deadline == 0.0 || b.deadline > now then SndResult(Some(b), [], [], Keep)
    else match b.state
      case WaitingCts =>
        SndResult(None, [AbortFrame(b.src, b.dst, b.session, TIMEOUT, b.pgn)], [], FreeRts(b.session))
      case SendingRtsCts =>
        var (b1, frames) := Burst(cfg, b, clock);
        SndResult(Some(b1), frames, [], Keep)
      case WaitingEomAck => SndResult(None, [], [], FreeRts(b.session))
      case EomAckReceived => SndResult(None, [], [], FreeRts(b.session))
      case SendingBam =>
        var (frame, b1) := SendSegment(b);
        SndResult(Some(b1.(state := if b1.next < b1.num then SendingBam else SendingEomStatus,
                           deadline := clock + cfg.bamInterval)), [frame], [], Keep)
      case SendingEomStatus =>
        SndResult(None, [EomStatusFrame(b.src, b.dst, b.session, b.size, b.num, b.pgn)], [], FreeBam(b.session))
      case TransmissionFinished => SndResult(None, [], [], Keep)
  }

  // ---- receiving side ----

  function OnRts(cfg: Config, buf: Option<RcvBuf>, src: int, dst: int, m: Cm, clock: real): RcvResult {
    if buf.Some? then
      RcvResult(buf, [AbortFrame(dst, src, m.session, BUSY, m.pgn)], [], FreeRts(m.session), None)
    else
      var window := Min(cfg.maxCmdt, Min(m.byte7, m.segments));
      RcvResult(Some(RcvBuf(m.pgn, m.session, m.size, m.segments, 1, window, Some(window), [],
                            clock + T2, src, dst)),
                [CtsFrame(dst, src, m.session, window, 1, m.pgn)], [], Keep, None)
  }

  /** A BAM for a session already in use only closes that session. */
  function OnBam(buf: Option<RcvBuf>, src: int, dst: int, m: Cm, clock: real): RcvResult {
    if buf.Some? then RcvResult(None, [], [], FreeBam(m.session), None)
    else
      RcvResult(Some(RcvBuf(m.pgn, m.session, m.size, m.segments, 1, 0, None, [], clock + T1, src, dst)),
                [], [], Keep, None)
  }

  function Deliver(priority: int, pgn: int, src: int, dst: int, data: seq<int>): Delivery {
    if pgn == PGN_COMMANDED_ADDRESS then CommandedAddress(src, dst, data)
    else ToSubscribers(priority, pgn, src, dst, data)
  }

  /** Delivery is decided by the announced sizes alone. */
  function OnEomStatus(buf: Option<RcvBuf>, priority: int, src: int, dst: int, m: Cm): RcvResult {
    if buf.None? then RcvResult(None, [], [], FreeRts(m.session), None)
    else
      var b := buf.value;
      if b.size == m.size && b.num == m.segments then
        RcvResult(None,
                  if dst != GLOBAL then [EomAckFrame(dst, src, m.session, m.size, m.segments, b.pgn)] else [],
                  [Deliver(priority, b.pgn, src, dst, b.data)], FreeRts(m.session), None)
      else
        RcvResult(None, [AbortFrame(dst, src, m.session, RESOURCES, b.pgn)], [], FreeRts(m.session), None)
  }

  /** Python's `s[:n]` for a non-negative `n`. */
  function Take(s: seq<int>, n: int): seq<int> {
    s[..Min(Max(n, 0), |s|)]
  }

  function SegmentOf(data: seq<int>): int
    requires |data| > 4
  {
    LittleEndian(data[1..4])
  }

  /** A data segment that is not the expected one is dropped. */
  function OnDt(buf: Option<RcvBuf>, src: int, dst: int, data: seq<int>, clock: real): RcvResult
    requires |data| > 4
  {
    var segment := SegmentOf(data);
    if segment == 0 || buf.None? || buf.value.next != segment then RcvResult(buf, [], [], Keep, None)
    else
      var b := buf.value.(data := buf.value.data + data[4..], next := segment + 1);
      if |b.data| >= b.size then
        RcvResult(Some(b.(data := Take(b.data, b.size),
                          deadline := if dst != GLOBAL then clock + T1 else b.deadline)), [], [], Keep, None)
      else if dst == GLOBAL then RcvResult(Some(b.(deadline := clock + T1)), [], [], Keep, None)
      else if b.window.None? then RcvResult(Some(b), [], [], Keep, Some(KeyError))
      else if segment >= b.border then
        RcvResult(Some(b.(border := Min(b.border + b.window.value, b.num), deadline := clock + T2)),
                  [CtsFrame(dst, src, SessionOf(data), Min(b.window.value, b.num - b.border), b.border + 1, b.pgn)],
                  [], Keep, None)
      else RcvResult(Some(b.(deadline := clock + T1)), [], [], Keep, None)
  }

  function SessionOf(data: seq<int>): int
    requires |data| > 4
  {
    data[0] / 16 % 16
  }

  predicate Expired(b: RcvBuf, now: real) {
    b.deadline != 0.0 && b.deadline <= now
  }

  function RcvJob(buf: Option<RcvBuf>, now: real): RcvResult {
    if buf.None? || !Expired(buf.value, now) then RcvResult(buf, [], [], Keep, None)
    else
      var b := buf.value;
      if b.dst != GLOBAL then
        RcvResult(None, [AbortFrame(b.dst, b.src, b.session, TIMEOUT, b.pgn)], [], FreeRts(b.session), None)
      else
        RcvResult(None, [], [], FreeBam(b.session), None)
  }

  // ---- frames as they arrive ----

  predicate IsTransport(h: Header) {
    h.dataPage == 0 && (h.format == PF_FD_TP_CM || h.format == PF_FD_TP_DT)
  }

  /** A transport frame at the node that receives the message. */
  function Receive(cfg: Config, buf: Option<RcvBuf>, f: Frame, clock: real): RcvResult {
    var h := f.header;
    var src, dst, priority := h.source, h.specific, h.priority;
    if h.format == PF_FD_TP_DT then
      if |f.data| <= 4 then RcvResult(buf, [], [], Keep, None) else OnDt(buf, src, dst, f.data, clock)
    else if h.format != PF_FD_TP_CM || |f.data| < 12 then RcvResult(buf, [], [], Keep, None)
    else
      var m := Decode(f.data);
      if m.kind == RTS then OnRts(cfg, buf, src, dst, m, clock)
      else if m.kind == BAM then OnBam(buf, src, dst, m, clock)
      else if m.kind == EOM_STATUS then OnEomStatus(buf, priority, src, dst, m)
      else RcvResult(buf, [], [], Keep, None)
  }

  /** A transport frame at the node that sends the message. */
  function Answer(cfg: Config, buf: Option<SndBuf>, f: Frame, clock: real): SndResult {
    var h := f.header;
    var src, dst, priority := h.source, h.specific, h.priority;
    if h.format != PF_FD_TP_CM || |f.data| < 12 then SndResult(buf, [], [], Keep)
    else
      var m := Decode(f.data);
      if m.kind == CTS then OnCts(cfg, buf, src, dst, m, clock)
      else if m.kind == EOM_ACK then OnEomAck(buf, priority, src, dst, m, f.data, clock)
      else if m.kind == ABORT then OnAbort(buf, clock)
      else SndResult(buf, [], [], Keep)
  }
}
