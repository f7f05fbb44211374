/** What a peer reads from the J1939-22 transport frames, and how segments add up to the message. */
module Frames22 {
  import opened Common
  import opened Wire
  import opened Transport22

  /** `f` is the management frame `m` from `src` to `dst`. */
  ghost predicate Carries(f: Frame, priority: int, src: int, dst: int, m: Cm) {
    f.header == Header(0, PF_FD_TP_CM, dst, src, priority) && |f.data| == 12 && Decode(f.data) == m
  }

  lemma FrameCarries(priority: int, src: int, dst: int, m: Cm, byte8: int)
    requires IsByte(src) && IsByte(dst) && Encodable(m)
    ensures Carries(CmFrame(priority, src, dst, CmData(m.kind, m.session, m.size, m.segments, m.byte7, byte8, m.pgn)),
                    priority % 8, src, dst, m)
  {
    DecodeRoundTrip(m, byte8);
  }

  lemma Received(cfg: Config, buf: Option<RcvBuf>, f: Frame, priority: int, src: int, dst: int, m: Cm, clock: real)
    requires Carries(f, priority, src, dst, m)
    ensures m.kind == RTS ==> Receive(cfg, buf, f, clock) == OnRts(cfg, buf, src, dst, m, clock)
    ensures m.kind == EOM_STATUS ==> Receive(cfg, buf, f, clock) == OnEomStatus(buf, priority, src, dst, m)
  {
  }

  lemma Answered(cfg: Config, buf: Option<SndBuf>, f: Frame, priority: int, src: int, dst: int, m: Cm, clock: real)
    requires Carries(f, priority, src, dst, m)
    ensures m.kind == CTS ==> Answer(cfg, buf, f, clock) == OnCts(cfg, buf, src, dst, m, clock)
    ensures m.kind == EOM_ACK ==> Answer(cfg, buf, f, clock) == OnEomAck(buf, priority, src, dst, m, f.data, clock)
  {
  }

  lemma EomStatusCarries(src: int, dst: int, session: int, size: int, num: int, pgn: int)
    requires IsByte(src) && IsByte(dst) && Encodable(Cm(EOM_STATUS, session, size, num, 0, pgn))
    ensures Carries(EomStatusFrame(src, dst, session, size, num, pgn), 7, src, dst,
                    Cm(EOM_STATUS, session, size, num, 0, pgn))
  {
    FrameCarries(7, src, dst, Cm(EOM_STATUS, session, size, num, 0, pgn), 0);
  }

  lemma EomAckCarries(src: int, dst: int, session: int, size: int, num: int, pgn: int)
    requires IsByte(src) && IsByte(dst) && Encodable(Cm(EOM_ACK, session, size, num, 0xFF, pgn))
    ensures Carries(EomAckFrame(src, dst, session, size, num, pgn), 7, src, dst,
                    Cm(EOM_ACK, session, size, num, 0xFF, pgn))
  {
    FrameCarries(7, src, dst, Cm(EOM_ACK, session, size, num, 0xFF, pgn), 0xFF);
  }

  /** Header and payload of a segment as it is first sent. */
  lemma DtContent(session: int, segment: int, chunk: seq<int>)
    requires 0 <= session < 16 && 1 <= segment < 0x100_0000 && |chunk| <= 60
    ensures var data := DtData(session, segment, chunk).0;
            && 4 + |chunk| <= |data| <= 64 && data[4..4 + |chunk|] == chunk
            && data[0] / 16 % 16 == session
            && LittleEndian(data[1..4]) == segment
            && (|chunk| == 60 ==> |data| == 64)
  {
    FieldRoundTrip3(segment);
    NibbleRoundTrip(0, session);
    var field := Bytes(segment, FIELD);
    var head := [session % 16 * 16] + field + chunk;
    var data := DtData(session, segment, chunk).0;
    assert data == head + data[|head|..];
    HeaderAt(session % 16 * 16, field, chunk, data[|head|..]);
  }

  lemma HeaderAt(x: int, field: seq<int>, chunk: seq<int>, rest: seq<int>)
    requires |field| == 3
    ensures var d := [x] + field + chunk + rest;
            d[0] == x && d[1..4] == field && d[4..4 + |chunk|] == chunk
  {
  }

  lemma Middle(s: seq<int>, i: nat, n: nat)
    requires i + n <= |s|
    ensures s[i..][..n] == s[i..i + n]
  {
  }

  /** The bytes the first `r` segments carry, without padding. */
  function Prefix(payload: seq<int>, r: nat): seq<int> { payload[..Min(60 * r, |payload|)] }

  lemma SegmentBounds(size: int)
    requires size > 0
    ensures 60 * (Segments(size) - 1) < size <= 60 * Segments(size)
  {
  }

  /** Appending a segment, padding included, and cutting at the announced size. */
  lemma AppendSegment(payload: seq<int>, session: int, r: nat)
    requires 0 <= session < 16 && 0 < |payload| < 0x100_0000 && r < Segments(|payload|)
    ensures var all := Prefix(payload, r) + DtData(session, r + 1, Chunk(payload, r)).0[4..];
            if r + 1 < Segments(|payload|) then |all| < |payload| && all == Prefix(payload, r + 1)
            else |all| >= |payload| && Take(all, |payload|) == payload == Prefix(payload, r + 1)
  {
    SegmentBounds(|payload|);
    var chunk := Chunk(payload, r);
    DtContent(session, r + 1, chunk);
    var data := DtData(session, r + 1, chunk).0;
    assert Prefix(payload, r) + chunk == Prefix(payload, r + 1);
    if r + 1 < Segments(|payload|) {
      assert data[4..] == chunk;
    } else {
      assert Prefix(payload, r + 1) == payload;
      Middle(data, 4, |chunk|);
      assert Take(Prefix(payload, r) + data[4..], |payload|) == Prefix(payload, r) + chunk;
    }
  }
}
