/**
 The J1939-21 transport protocol, one buffer at a time: what each handler and
 each pass of the job thread does to the one buffer it touches, which frames it
 sends, what it delivers and which exception it raises.
 */
module Transport21 {
  import opened Common
  import opened Wire

  const CM_RTS := 16
  const CM_CTS := 17
  const CM_EOM_ACK := 19
  const CM_BAM := 32
  const CM_ABORT := 255

  const BUSY := 1
  const RESOURCES := 2
  const TIMEOUT := 3

  /** Bytes of the size and PGN fields. */
  const SIZE_WIDTH: nat := 2
  const PGN_WIDTH: nat := 3

  const TH := 0.5
  const T1 := 0.75
  const T2 := 1.25
  const T3 := 1.25

  datatype SndState = WaitingCts | SendingInCts | SendingBm | TransmissionFinished

  /** One entry of `_snd_buffer`. */
  datatype SndBuf = SndBuf(
    pgn: int, priority: int, size: int, num: int, data: seq<int>, state: SndState,
    deadline: real, src: int, dst: int, next: int, waitOn: int)

  /** One entry of `_rcv_buffer`; `maxRec` is only stored for an RTS. */
  datatype RcvBuf = RcvBuf(
    pgn: int, size: int, num: int, expected: int, border: int, maxRec: Option<int>,
    data: seq<int>, deadline: real, src: int, dst: int)

  datatype RcvResult = RcvResult(
    buf: Option<RcvBuf>, sent: seq<Frame>, out: seq<Delivery>, error: Option<Error>)

  datatype SndResult = SndResult(buf: Option<SndBuf>, sent: seq<Frame>, out: seq<Delivery>)

  /** `_buffer_hash` */
  function Hash(src: int, dst: int): int {
    src % 0x100 * 0x100 + dst % 0x100
  }

  lemma HashInjective(s1: int, d1: int, s2: int, d2: int)
    requires IsByte(s1) && IsByte(d1) && IsByte(s2) && IsByte(d2)
    ensures Hash(s1, d1) == Hash(s2, d2) <==> s1 == s2 && d1 == d2
  {
    Unhash(s1, d1);
    Unhash(s2, d2);
  }

  /** A key determines what it was made from. */
  lemma Unhash(s: int, d: int)
    requires IsByte(s) && IsByte(d)
    ensures Hash(s, d) / 0x100 == s && Hash(s, d) % 0x100 == d
  {
    assert s % 0x100 == s && d % 0x100 == d;
    LowByte(s, d);
  }

  /** Number of 7-byte packets of a message. */
  function Packets(size: int): int {
    if size % 7 == 0 then size / 7 else size / 7 + 1
  }

  // ---- frames ----

  /** The three PGN bytes at the end of every TP.CM frame. */
  function PgnOf(data: seq<int>): int
    requires |data| >= 8
  {
    LittleEndian(data[5..8])
  }

  function SizeOf(data: seq<int>): int
    requires |data| >= 8
  {
    LittleEndian(data[1..3])
  }

  function CmFrame(priority: int, src: int, dst: int, head: seq<int>, pgn: int): Frame {
    PduFrame(PF_TP_CM, priority, src, dst, head + Bytes(pgn, PGN_WIDTH))
  }

  function RtsFrame(src: int, dst: int, priority: int, pgn: int, size: int, num: int, maxNum: int): Frame {
    CmFrame(priority, src, dst, [CM_RTS] + Bytes(size, SIZE_WIDTH) + [num, maxNum], pgn)
  }

  function CtsFrame(src: int, dst: int, num: int, next: int, pgn: int): Frame {
    CmFrame(7, src, dst, [CM_CTS, num, next, 0xFF, 0xFF], pgn)
  }

  function EomAckFrame(src: int, dst: int, size: int, num: int, pgn: int): Frame {
    CmFrame(7, src, dst, [CM_EOM_ACK] + Bytes(size, SIZE_WIDTH) + [num, 0xFF], pgn)
  }

  function BamFrame(src: int, priority: int, pgn: int, size: int, num: int): Frame {
    CmFrame(priority, src, GLOBAL, [CM_BAM] + Bytes(size, SIZE_WIDTH) + [num, 0xFF], pgn)
  }

  function AbortFrame(src: int, dst: int, reason: int, pgn: int): Frame {
    CmFrame(7, src, dst, [CM_ABORT, reason, 0xFF, 0xFF, 0xFF], pgn)
  }

  /** Bytes 7*package .. 7*package+6 of the message, filled up with 0xFF. */
  function Chunk(data: seq<int>, package: nat): (c: seq<int>)
    ensures |c| == 7
  {
    var off := 7 * package;
    seq(7, i requires 0 <= i < 7 => if off + i < |data| then data[off + i] else 255)
  }

  /** The bytes of the first `r` packets, filling included. */
  function Gathered(payload: seq<int>, r: nat): seq<int> {
    seq(7 * r, i requires 0 <= i < 7 * r => if i < |payload| then payload[i] else 255)
  }

  lemma GatherNext(payload: seq<int>, r: nat)
    ensures Gathered(payload, r) + Chunk(payload, r) == Gathered(payload, r + 1)
  {
  }

  function DtFrame(src: int, dst: int, data: seq<int>, package: nat): Frame {
    PduFrame(PF_TP_DT, 7, src, dst, [package + 1] + Chunk(data, package))
  }

  /** Size and PGN survive their byte form. */
  lemma CmFields(control: int, size: int, num: int, x: int, pgn: int)
    requires 0 <= size < 0x1_0000 && 0 <= pgn < 0x100_0000
    ensures var data := [control] + Bytes(size, SIZE_WIDTH) + [num, x] + Bytes(pgn, PGN_WIDTH);
            && |data| == 8 && data[0] == control && data[3] == num && data[4] == x
            && SizeOf(data) == size && PgnOf(data) == pgn
  {
    var data := [control] + Bytes(size, SIZE_WIDTH) + [num, x] + Bytes(pgn, PGN_WIDTH);
    assert data[1..3] == Bytes(size, SIZE_WIDTH) && data[5..8] == Bytes(pgn, PGN_WIDTH);
    assert Power256(SIZE_WIDTH) == 0x1_0000 && Power256(PGN_WIDTH) == 0x100_0000 by {
      assert Power256(1) == 0x100;
    }
    FieldRoundTrip(size, SIZE_WIDTH);
    FieldRoundTrip(pgn, PGN_WIDTH);
  }

  // ---- sending side ----

  /** `_put_multi_msg`: the announcement and the new send buffer. */
  function Start(cfg: Config, data: seq<int>, dst: int, src: int, priority: int, pgn: int,
                 pduSpecific: int, clock: real): (r: (Frame, SndBuf))
  {
    var size := |data|;
    var num := Packets(size);
    if dst == GLOBAL then
      (BamFrame(src, priority, pgn, size, num),
       SndBuf(pgn, priority, size, num, data, SendingBm, clock + cfg.bamInterval, src, GLOBAL, 0, 0))
    else
      var pgn0 := pgn - pgn % 0x100;
      (RtsFrame(src, pduSpecific, priority, pgn0, size, num, Min(cfg.maxCmdt, num)),
       SndBuf(pgn0, priority, size, num, data, WaitingCts, clock + T3, src, pduSpecific, 0, 0))
  }

  /** TP.CM_CTS received by `dst` from `src`. */
  function OnCts(buf: Option<SndBuf>, src: int, dst: int, data: seq<int>, clock: real): SndResult
    requires |data| >= 8
  {
    if buf.None? then
      SndResult(None, [AbortFrame(dst, src, RESOURCES, PgnOf(data))], [])
    else
      var b := buf.value;
      var num, nextPackage := data[1], data[2] - 1;
      if num == 0 then
        SndResult(Some(b.(deadline := clock + TH)), [], [])
      else
        var n1 := Min(num, b.num);
        var n2 := if nextPackage + n1 > b.num then b.num - nextPackage else n1;
        SndResult(Some(b.(waitOn := b.next + n2 - 1, state := SendingInCts, deadline := clock)), [], [])
  }

  /** TP.CM_EndOfMsgACK received by `dst` from `src`; subscribers see its raw bytes. */
  function OnEomAck(buf: Option<SndBuf>, priority: int, src: int, dst: int, data: seq<int>, clock: real): SndResult
    requires |data| >= 8
  {
    if buf.None? then
      SndResult(None, [AbortFrame(dst, src, RESOURCES, PgnOf(data))], [])
    else
      SndResult(Some(buf.value.(state := TransmissionFinished, deadline := clock)), [],
                [ToSubscribers(priority, PgnOf(data), src, dst, data)])
  }

  function OnAbort(buf: Option<SndBuf>, clock: real): SndResult {
    if buf.Some? && buf.value.state.WaitingCts? then
      SndResult(Some(buf.value.(state := TransmissionFinished, deadline := clock)), [], [])
    else
      SndResult(buf, [], [])
  }

  ghost predicate SndWf(b: SndBuf) {
    0 <= b.next && b.num == Packets(|b.data|)
  }

  /** The inner loop of `async_job_thread`: packets sent in one pass inside a window. */
  function Burst(cfg: Config, b: SndBuf, clock: real): (r: (SndBuf, seq<Frame>))
    requires SndWf(b)
    ensures SndWf(r.0)
    decreases b.num - b.next
  {
    if b.next < b.num then
      var frame := DtFrame(b.src, b.dst, b.data, b.next);
      var b1 := b.(next := b.next + 1);
      if b.next == b.waitOn then
        (b1.(state := WaitingCts, deadline := clock + T3), [frame])
      else if cfg.rtsInterval.Some? then
        (b1.(deadline := clock + cfg.rtsInterval.value), [frame])
      else
        var (b2, frames) := Burst(cfg, b1, clock);
        (b2, [frame] + frames)
    else
      (b, [])
  }

  /** One pass over one send buffer: the buffer left behind and the frames sent. */
  function SndJob(cfg: Config, b: SndBuf, now: real, clock: real): (r: (Option<SndBuf>, seq<Frame>))
    requires SndWf(b)
    ensures r.0.Some? ==> SndWf(r.0.value)
  {
    if b.deadline == 0.0 || b.deadline > now then (Some(b), [])
    else match b.state
      case WaitingCts => (None, [AbortFrame(b.src, b.dst, TIMEOUT, b.pgn)])
      case SendingInCts =>
        var (b1, frames) := Burst(cfg, b, clock);
        (Some(b1), frames)
      case SendingBm =>
        var frame := DtFrame(b.src, b.dst, b.data, b.next);
        var b1 := b.(next := b.next + 1);
        if b1.next < b1.num then (Some(b1.(deadline := clock + cfg.bamInterval)), [frame])
        else (None, [frame])
      case TransmissionFinished => (None, [])
  }

  // ---- receiving side ----

  function OnRts(cfg: Config, buf: Option<RcvBuf>, src: int, dst: int, data: seq<int>, clock: real): RcvResult
    requires |data| >= 8
  {
    var pgn := PgnOf(data);
    if buf.Some? then
      RcvResult(buf, [AbortFrame(dst, src, BUSY, pgn)], [], None)
    else
      var num := data[3];
      var window := Min(cfg.maxCmdt, Min(data[4], num));
      RcvResult(Some(RcvBuf(pgn, SizeOf(data), num, 1, window, Some(window), [],
                            clock + T2, src, dst)),
                [CtsFrame(dst, src, window, 1, pgn)], [], None)
  }

  /** A BAM replaces whatever was being received. */
  function OnBam(src: int, dst: int, data: seq<int>, clock: real): RcvResult
    requires |data| >= 8
  {
    RcvResult(Some(RcvBuf(PgnOf(data), SizeOf(data), data[3], 1, 1, None, [],
                          clock + T1, src, dst)), [], [], None)
  }

  /** Python's `s[:n]`. */
  function Take(s: seq<int>, n: int): (t: seq<int>)
    ensures 0 <= n <= |s| ==> t == s[..n]
  {
    if n < 0 then (if |s| + n <= 0 then [] else s[..|s| + n])
    else if n >= |s| then s
    else s[..n]
  }

  function Deliver(priority: int, b: RcvBuf, src: int, dst: int, data: seq<int>): Delivery {
    if b.pgn == PGN_COMMANDED_ADDRESS then CommandedAddress(src, dst, data)
    else ToSubscribers(priority, b.pgn, src, dst, data)
  }

  /** TP.DT received by `dst` from `src`. */
  function OnDt(buf: Option<RcvBuf>, priority: int, src: int, dst: int, data: seq<int>, clock: real): RcvResult
    requires |data| >= 1
  {
    if buf.None? then RcvResult(None, [], [], None)
    else
      var b := buf.value;
      if data[0] != b.expected then
        RcvResult(None, if dst != GLOBAL then [AbortFrame(dst, src, RESOURCES, b.pgn)] else [], [],
                  Some(ValueError))
      else
        var b1 := b.(data := b.data + data[1..], expected := b.expected + 1);
        if |b1.data| >= b1.size then
          RcvResult(None,
                    if dst != GLOBAL then [EomAckFrame(dst, src, b.size, b.num, b.pgn)] else [],
                    [Deliver(priority, b, src, dst, Take(b1.data, b.size))], None)
        else if dst != GLOBAL && data[0] >= b.border then
          if b.maxRec.None? then RcvResult(Some(b1), [], [], Some(KeyError))
          else
            var window := b.maxRec.value;
            RcvResult(Some(b1.(border := Min(b.border + window, b.num), deadline := clock + T2)),
                      [CtsFrame(dst, src, Min(window, b.num - b.border), b.border + 1, b.pgn)], [], None)
        else
          RcvResult(Some(b1.(deadline := clock + T1)), [], [], None)
  }

  predicate Expired(b: RcvBuf, now: real) {
    b.deadline != 0.0 && b.deadline <= now
  }

  /** Frames sent when a receive buffer times out. */
  function TimeoutFrames(b: RcvBuf): seq<Frame> {
    if b.dst != GLOBAL then [AbortFrame(b.dst, b.src, TIMEOUT, b.pgn)] else []
  }

  function RcvJob(buf: Option<RcvBuf>, now: real): (Option<RcvBuf>, seq<Frame>) {
    if buf.Some? && Expired(buf.value, now) then (None, TimeoutFrames(buf.value)) else (buf, [])
  }

  // ---- frames as they arrive ----

  /** A transport frame at the node that receives the message: `notify` routes it by PDU format. */
  function Receive(cfg: Config, buf: Option<RcvBuf>, f: Frame, clock: real): RcvResult {
    var src, dst := f.header.source, f.header.specific;
    if f.header.format == PF_TP_DT then
      if |f.data| < 1 then RcvResult(buf, [], [], Some(IndexError))
      else OnDt(buf, f.header.priority, src, dst, f.data, clock)
    else if f.header.format != PF_TP_CM || |f.data| < 8 then RcvResult(buf, [], [], Some(IndexError))
    else if f.data[0] == CM_RTS then OnRts(cfg, buf, src, dst, f.data, clock)
    else if f.data[0] == CM_BAM then OnBam(src, dst, f.data, clock)
    else RcvResult(buf, [], [], None)
  }

  /** A transport frame at the node that sends the message. */
  function Answer(buf: Option<SndBuf>, f: Frame, clock: real): SndResult {
    var src, dst := f.header.source, f.header.specific;
    if f.header.format != PF_TP_CM || |f.data| < 8 then SndResult(buf, [], [])
    else if f.data[0] == CM_CTS then OnCts(buf, src, dst, f.data, clock)
    else if f.data[0] == CM_EOM_ACK then OnEomAck(buf, f.header.priority, src, dst, f.data, clock)
    else if f.data[0] == CM_ABORT then OnAbort(buf, clock)
    else SndResult(buf, [], [])
  }

  /** The frame concerns a message received here. */
  predicate ForReceiver(f: Frame) {
    f.header.format == PF_TP_DT || (|f.data| >= 8 && (f.data[0] == CM_RTS || f.data[0] == CM_BAM))
  }

  predicate ForSender(f: Frame) {
    f.header.format == PF_TP_CM && |f.data| >= 8
    && (f.data[0] == CM_CTS || f.data[0] == CM_EOM_ACK || f.data[0] == CM_ABORT)
  }

  predicate IsTransport(h: Header) {
    h.dataPage == 0 && (h.format == PF_TP_CM || h.format == PF_TP_DT)
  }

  /** The key of the receive buffer a frame belongs to. */
  function RcvKey(h: Header): int { Hash(h.source, h.specific) }

  /** The key of the send buffer an answer belongs to. */
  function SndKey(h: Header): int { Hash(h.specific, h.source) }
}
