/**
 J1939-22 Multi-PG: small parameter groups packed into one CAN FD frame, the
 parser that takes them apart again, and the buffers in which they wait.
 */
module MultiPg {
  import opened Common
  import opened Wire
  import opened Transport22

  const PF_MULTI_PG := 37
  const FBFF := 2

  /** A contained parameter group: service header fields and payload. */
  datatype Cpg = Cpg(priority: int, tos: int, tf: int, pgn: int, data: seq<int>)

  /** What the parser hands on. */
  datatype Pdu = Pdu(pgn: int, data: seq<int>)

  predicate Wf(c: Cpg) {
    0 <= c.priority < 8 && 0 <= c.tos < 8 && 0 <= c.tf < 8 && 0 <= c.pgn < 0x4_0000 && |c.data| <= 60
  }

  /** "SAE J1939 with no assurance data". */
  predicate Plain(c: Cpg) {
    Wf(c) && c.tos == 2 && c.tf == 0
  }

  // ---- packing ----

  function Service(c: Cpg): (h: seq<int>)
    ensures |h| == 4
  {
    [c.tos * 32 + c.tf * 4 + c.pgn / 0x1_0000 % 4, c.pgn / 0x100 % 0x100, c.pgn % 0x100, |c.data|]
  }

  /** Bytes the groups need without padding. */
  function Size(cs: seq<Cpg>): nat {
    if cs == [] then 0 else 4 + |cs[0].data| + Size(cs[1..])
  }

  function Body(cs: seq<Cpg>): (b: seq<int>)
    ensures |b| == Size(cs)
  {
    if cs == [] then [] else Service(cs[0]) + cs[0].data + Body(cs[1..])
  }

  lemma {:induction false} BodySnoc(cs: seq<Cpg>, c: Cpg)
    ensures Body(cs + [c]) == Body(cs) + Service(c) + c.data
    ensures Size(cs + [c]) == Size(cs) + 4 + |c.data|
  {
    if cs == [] {
      assert cs + [c] == [c] && [c][1..] == [];
    } else {
      assert (cs + [c])[1..] == cs[1..] + [c];
      BodySnoc(cs[1..], c);
    }
  }

  /** A service header of zeros, then 0xAA. */
  function Padding(n: nat): (p: seq<int>)
    ensures |p| == n && (n > 0 ==> p[0] == 0)
  {
    seq(n, i => if i < 3 then 0 else 0xAA)
  }

  function Pack(cs: seq<Cpg>): seq<int>
    requires Size(cs) <= 64
  {
    Body(cs) + Padding(PaddedLength(Size(cs)) - Size(cs))
  }

  function LowestPriority(cs: seq<Cpg>, start: int): int {
    if cs == [] then start else LowestPriority(cs[1..], Min(cs[0].priority, start))
  }

  lemma {:induction false} LowestPrioritySnoc(cs: seq<Cpg>, c: Cpg, start: int)
    ensures LowestPriority(cs + [c], start) == Min(c.priority, LowestPriority(cs, start))
  {
    if cs == [] {
      assert cs + [c] == [c] && [c][1..] == [];
    } else {
      assert (cs + [c])[1..] == cs[1..] + [c];
      LowestPrioritySnoc(cs[1..], c, Min(cs[0].priority, start));
    }
  }

  /** The frame takes the most urgent priority among its groups. */
  lemma {:induction false} PriorityIsMostUrgent(cs: seq<Cpg>, start: int)
    ensures LowestPriority(cs, start) <= start
    ensures forall c :: c in cs ==> LowestPriority(cs, start) <= c.priority
    ensures LowestPriority(cs, start) == start || exists c :: c in cs && LowestPriority(cs, start) == c.priority
  {
    if cs != [] { PriorityIsMostUrgent(cs[1..], Min(cs[0].priority, start)); }
  }

  function MultiPgFrame(format: int, cs: seq<Cpg>, src: int, dst: int): Frame
    requires Size(cs) <= 64
  {
    if format == FBFF then Frame(false, Header(0, 0, 0, src, 0), Pack(cs))
    else PduFrame(PF_MULTI_PG, LowestPriority(cs, 7), src, dst, Pack(cs))
  }

  // ---- parsing ----

  function Field(data: seq<int>): int
    requires |data| > 4
  {
    data[0] % 4 * 0x1_0000 + data[1] * 0x100 + data[2]
  }

  /** Where the first group of the data ends. */
  function EndOf(data: seq<int>): (n: nat)
    requires |data| > 4
    ensures 4 <= n <= |data|
  {
    Min(4 + data[3] % 0x100, |data|)
  }

  predicate IsPlain(data: seq<int>)
    requires |data| > 4
  {
    data[0] / 32 % 8 == 2 && data[0] / 4 % 8 == 0
  }

  /** Other formats than the plain one are skipped, padding ends the frame. */
  function Parse(data: seq<int>): seq<Pdu>
    decreases |data|
  {
    if |data| <= 4 || data[0] / 32 % 8 == 0 then []
    else
      (if IsPlain(data) then [Pdu(Field(data), data[4..EndOf(data)])] else []) + Parse(data[EndOf(data)..])
  }

  function Pdus(cs: seq<Cpg>): (r: seq<Pdu>)
    ensures |r| == |cs|
  {
    if cs == [] then [] else [Pdu(cs[0].pgn, cs[0].data)] + Pdus(cs[1..])
  }

  /** Groups a receiver finds: up to the first without a type of service, those in the plain format. */
  function Readable(cs: seq<Cpg>): seq<Cpg> {
    if cs == [] || cs[0].tos == 0 then [] else (if Plain(cs[0]) then [cs[0]] else []) + Readable(cs[1..])
  }

  lemma {:induction false} PlainIsReadable(cs: seq<Cpg>)
    requires forall c :: c in cs ==> Plain(c)
    ensures Readable(cs) == cs
  {
    if cs != [] {
      assert cs[0] in cs && cs == [cs[0]] + cs[1..];
      PlainIsReadable(cs[1..]);
    }
  }

  lemma ServiceFields(c: Cpg)
    requires Wf(c)
    ensures var h := Service(c);
            && h[0] / 32 % 8 == c.tos && h[0] / 4 % 8 == c.tf && h[3] % 0x100 == |c.data|
            && h[0] % 4 * 0x1_0000 + h[1] * 0x100 + h[2] == c.pgn
  {
    var top := c.pgn / 0x1_0000;
    assert 0 <= top < 4;
    FirstByte(c.tos, c.tf, top);
    assert c.pgn == c.pgn / 0x100 * 0x100 + c.pgn % 0x100;
    assert c.pgn / 0x100 == top * 0x100 + c.pgn / 0x100 % 0x100;
  }

  lemma FirstByte(tos: int, tf: int, top: int)
    requires 0 <= tos < 8 && 0 <= tf < 8 && 0 <= top < 4
    ensures var b := tos * 32 + tf * 4 + top % 4; b / 32 % 8 == tos && b / 4 % 8 == tf && b % 4 == top
  {
    var b := tos * 32 + tf * 4 + top;
    assert b / 4 == tos * 8 + tf;
    assert b / 32 == tos;
  }

  /** The first group is read back as it was written, whatever follows it. */
  lemma FirstGroup(c: Cpg, rest: seq<int>)
    requires Wf(c) && c.data + rest != []
    ensures Parse(Service(c) + c.data + rest) ==
            if c.tos == 0 then [] else (if Plain(c) then [Pdu(c.pgn, c.data)] else []) + Parse(rest)
  {
    var h := Service(c);
    var data := h + c.data + rest;
    ServiceFields(c);
    assert |data| > 4 && data[0] == h[0] && data[1] == h[1] && data[2] == h[2] && data[3] == h[3];
    assert EndOf(data) == 4 + |c.data|;
    assert data[4..4 + |c.data|] == c.data && data[4 + |c.data|..] == rest;
  }

  /** Only an empty last group without padding behind it gets lost. */
  predicate LosesLast(cs: seq<Cpg>, padding: nat) {
    cs != [] && cs[|cs| - 1].data == [] && padding == 0
  }

  lemma BodyFirst(cs: seq<Cpg>, n: nat)
    requires cs != []
    ensures Body(cs) + Padding(n) == Service(cs[0]) + cs[0].data + (Body(cs[1..]) + Padding(n))
  {
    hide Service;
  }

  /** An empty last group is too short to be read. */
  lemma NothingFollows(cs: seq<Cpg>, n: nat)
    requires cs != [] && cs[0].data + (Body(cs[1..]) + Padding(n)) == []
    ensures cs[1..] == [] && LosesLast(cs, n) && Pdus(Readable(cs[..|cs| - 1])) == []
    ensures Parse(Service(cs[0]) + cs[0].data + (Body(cs[1..]) + Padding(n))) == []
  {
    hide Parse;
    assert |Body(cs[1..])| == Size(cs[1..]) == 0;
    ShortData(Service(cs[0]) + cs[0].data + (Body(cs[1..]) + Padding(n)));
  }

  /** Packed groups of any format before any padding. */
  lemma {:induction false} ParseBody(cs: seq<Cpg>, n: nat)
    requires forall c :: c in cs ==> Wf(c)
    ensures Parse(Body(cs) + Padding(n)) == Pdus(Readable(if LosesLast(cs, n) then cs[..|cs| - 1] else cs))
  {
    hide Service, Plain, Parse, Wf;
    if cs == [] {
      assert Body(cs) + Padding(n) == Padding(n);
      ParsePadding(n);
    } else {
      hide Body, Readable, Pdus;
      var tail := Body(cs[1..]) + Padding(n);
      assert cs[0] in cs && forall c :: c in cs[1..] ==> c in cs;
      BodyFirst(cs, n);
      ParseBody(cs[1..], n);
      if cs[0].data + tail == [] {
        NothingFollows(cs, n);
      } else {
        EmptyBody(cs, n);
        FirstGroup(cs[0], tail);
        LastOfRest(cs, n);
      }
    }
  }

  lemma EmptyBody(cs: seq<Cpg>, n: nat)
    requires cs != []
    ensures cs[1..] == [] && n == 0 ==> Body(cs[1..]) + Padding(n) == []
  {
  }

  lemma ShortData(data: seq<int>)
    requires |data| <= 4
    ensures Parse(data) == []
  {
  }

  lemma ParsePadding(n: nat)
    ensures Parse(Padding(n)) == []
  {
  }

  /** What is read of a list begins with its first group. */
  lemma LastOfRest(cs: seq<Cpg>, n: nat)
    requires cs != [] && !(|cs| == 1 && cs[0].data == [] && n == 0)
    ensures var left, more := if LosesLast(cs, n) then cs[..|cs| - 1] else cs,
                              if LosesLast(cs[1..], n) then cs[1..][..|cs| - 2] else cs[1..];
            Pdus(Readable(left)) ==
            if cs[0].tos == 0 then []
            else (if Plain(cs[0]) then [Pdu(cs[0].pgn, cs[0].data)] else []) + Pdus(Readable(more))
  {
    hide Plain;
    if LosesLast(cs, n) {
      assert cs[..|cs| - 1][1..] == cs[1..][..|cs| - 2];
    }
    var left := if LosesLast(cs, n) then cs[..|cs| - 1] else cs;
    var more := Readable(left[1..]);
    assert [] + more == more && [] + Pdus(more) == Pdus(more);
    assert ([cs[0]] + more)[1..] == more;
  }

  /** Dropping the last group of a list matters exactly when it would have been read. */
  lemma {:induction false} ReadableLast(cs: seq<Cpg>)
    requires cs != []
    ensures var last := cs[|cs| - 1];
            |Readable(cs)| == |Readable(cs[..|cs| - 1])| + (if Plain(last) && AllServed(cs) then 1 else 0)
            && (!(Plain(last) && AllServed(cs)) ==> Readable(cs) == Readable(cs[..|cs| - 1]))
  {
    hide Plain;
    if |cs| > 1 && cs[0].tos != 0 {
      ReadableLast(cs[1..]);
      assert cs[..|cs| - 1][1..] == cs[1..][..|cs[1..]| - 1];
    } else {
      PlainHasService(cs[0]);
    }
  }

  lemma PlainHasService(c: Cpg)
    ensures Plain(c) ==> c.tos == 2
  {
  }

  /** No group stops the receiver. */
  predicate AllServed(cs: seq<Cpg>) {
    forall c :: c in cs ==> c.tos != 0
  }

  /**
   Parsing a packed and padded frame yields the readable groups in order, unless the
   last group would be one of them, is empty and has no padding behind it. The packed
   length is the least legal CAN FD length.
   */
  lemma AnyFormatRoundTrip(cs: seq<Cpg>)
    requires Size(cs) <= 64 && forall c :: c in cs ==> Wf(c)
    ensures Parse(Pack(cs)) == Pdus(Readable(cs)) <==>
            !(cs != [] && cs[|cs| - 1].data == [] && FdLength(Size(cs)) && Plain(cs[|cs| - 1]) && AllServed(cs))
    ensures FdLength(|Pack(cs)|) && forall m :: FdLength(m) && Size(cs) <= m ==> |Pack(cs)| <= m
  {
    hide Plain, Parse, Readable, AllServed, Wf;
    var n := PaddedLength(Size(cs)) - Size(cs);
    ParseBody(cs, n);
    PaddingNeeded(Size(cs));
    if LosesLast(cs, n) { ReadableLast(cs); }
    forall m | FdLength(m) && Size(cs) <= m ensures |Pack(cs)| <= m {
      PaddedLengthIsLeast(Size(cs), m);
    }
  }

  /**
   For groups in the plain format: the same groups in the same order come back, if and
   only if the last one has a payload or some padding follows it.
   */
  lemma MultiPgRoundTrip(cs: seq<Cpg>)
    requires Size(cs) <= 64 && forall c :: c in cs ==> Plain(c)
    ensures Parse(Pack(cs)) == Pdus(cs) <==> !(cs != [] && cs[|cs| - 1].data == [] && FdLength(Size(cs)))
  {
    hide Pack, Parse, Size, FdLength;
    PlainIsReadable(cs);
    AnyFormatRoundTrip(cs);
  }

  lemma PaddingNeeded(size: nat)
    requires size <= 64
    ensures FdLength(PaddedLength(size))
    ensures PaddedLength(size) == size <==> FdLength(size)
  {
    PaddedLengthIsLeast(size, 64);
    if FdLength(size) { PaddedLengthIsLeast(size, size); }
  }

  // ---- waiting buffers ----

  /** One entry of `_multi_pg_snd_buffer`. */
  datatype Batch = Batch(deadline: real, cpgs: seq<Cpg>, fill: int)

  type Batches = map<int, Batch>

  /** `_buffer_hash_mpg` */
  function MpgHash(format: int, counter: int, src: int, dst: int): int {
    format % 0x100 * 0x100_0000 + counter % 0x100 * 0x1_0000 + src % 0x100 * 0x100 + dst % 0x100
  }

  /** `_buffer_unhash_mpg`: format, counter, source and destination. */
  function MpgUnhash(h: int): (int, int, int, int) {
    (h / 0x100_0000 % 0x100, h / 0x1_0000 % 0x100, h / 0x100 % 0x100, h % 0x100)
  }

  lemma MpgUnhashRoundTrip(format: int, counter: int, src: int, dst: int)
    requires IsByte(format) && IsByte(counter) && IsByte(src) && IsByte(dst)
    ensures MpgUnhash(MpgHash(format, counter, src, dst)) == (format, counter, src, dst)
  {
    MpgHashIs(format, counter, src, dst);
    var h := MpgHash(format, counter, src, dst);
    Digits(format, counter, src, dst);
  }

  lemma MpgHashIs(format: int, counter: int, src: int, dst: int)
    requires IsByte(format) && IsByte(counter) && IsByte(src) && IsByte(dst)
    ensures MpgHash(format, counter, src, dst) == ((format * 0x100 + counter) * 0x100 + src) * 0x100 + dst
  {
  }

  lemma Digits(a: int, b: int, c: int, d: int)
    requires IsByte(a) && IsByte(b) && IsByte(c) && IsByte(d)
    ensures MpgUnhash(((a * 0x100 + b) * 0x100 + c) * 0x100 + d) == (a, b, c, d)
  {
    LowByte((a * 0x100 + b) * 0x100 + c, d);
    LowByte(a * 0x100 + b, c);
    LowByte(a, b);
    ByteSteps(((a * 0x100 + b) * 0x100 + c) * 0x100 + d);
  }

  /** Every buffer knows how full it is, and fits one frame. */
  ghost predicate Filled(mpg: Batches) {
    forall k :: k in mpg ==>
      && mpg[k].fill == Size(mpg[k].cpgs) <= 64 && mpg[k].cpgs != []
      && (forall c :: c in mpg[k].cpgs ==> Wf(c))
  }

  predicate HasRoom(mpg: Batches, k: int, length: nat) {
    k !in mpg || mpg[k].fill <= 60 - length
  }

  /** The slots searched in vain are told to send at once. */
  ghost function Triggered(mpg: Batches, format: int, src: int, dst: int, n: nat, clock: real): Batches {
    if n == 0 then mpg
    else
      var t := Triggered(mpg, format, src, dst, n - 1, clock);
      var k := MpgHash(format, n - 1, src, dst);
      if k in t then t[k := t[k].(deadline := clock)] else t
  }

  /** The group joins a waiting buffer, whose deadline may move closer, or opens a new one. */
  function Place(mpg: Batches, k: int, c: Cpg, deadline: real): Batches {
    if k in mpg then
      mpg[k := Batch(if mpg[k].deadline > deadline then deadline else mpg[k].deadline,
                     mpg[k].cpgs + [c], mpg[k].fill + 4 + |c.data|)]
    else
      mpg[k := Batch(deadline, [c], 4 + |c.data|)]
  }

  lemma {:induction false} TriggeredKeeps(mpg: Batches, format: int, src: int, dst: int, n: nat, clock: real)
    ensures var t := Triggered(mpg, format, src, dst, n, clock);
            && t.Keys == mpg.Keys
            && forall k :: k in mpg ==> t[k] == mpg[k].(deadline := t[k].deadline)
                                        && (t[k].deadline == mpg[k].deadline || t[k].deadline == clock)
  {
    if n > 0 { TriggeredKeeps(mpg, format, src, dst, n - 1, clock); }
  }

  /** A group joins a buffer exactly if header and payload still fit into the frame. */
  lemma RoomIffFits(mpg: Batches, k: int, length: nat)
    requires Filled(mpg)
    ensures HasRoom(mpg, k, length) <==> k !in mpg || Size(mpg[k].cpgs) + 4 + length <= 64
  {
  }

  lemma PlaceFilled(mpg: Batches, k: int, c: Cpg, deadline: real)
    requires Filled(mpg) && Wf(c) && HasRoom(mpg, k, |c.data|)
    ensures Filled(Place(mpg, k, c, deadline))
  {
    var before := if k in mpg then mpg[k].cpgs else [];
    BodySnoc(before, c);
    assert [] + [c] == [c];
  }

  lemma TriggeredFilled(mpg: Batches, format: int, src: int, dst: int, n: nat, clock: real)
    requires Filled(mpg)
    ensures Filled(Triggered(mpg, format, src, dst, n, clock))
  {
    TriggeredKeeps(mpg, format, src, dst, n, clock);
  }

  // ---- conservation ----

  /** Log entry of a group taken for sending later, no later than `due`. */
  datatype Accepted = Accepted(slot: int, cpg: Cpg, due: real)

  /** Log entry of a buffer sent. */
  datatype Flushed = Flushed(slot: int, cpgs: seq<Cpg>, frame: Frame)

  ghost function AcceptedInto(log: seq<Accepted>, slot: int): seq<Cpg> {
    if log == [] then []
    else
      var last := log[|log| - 1];
      AcceptedInto(log[..|log| - 1], slot) + (if last.slot == slot then [last.cpg] else [])
  }

  /** The deadlines the groups of a slot were accepted with, in the order of acceptance. */
  ghost function Deadlines(log: seq<Accepted>, slot: int): (ds: seq<real>)
    ensures |ds| == |AcceptedInto(log, slot)|
  {
    if log == [] then []
    else
      var last := log[|log| - 1];
      Deadlines(log[..|log| - 1], slot) + (if last.slot == slot then [last.due] else [])
  }

  ghost function FlushedFrom(log: seq<Flushed>, slot: int): seq<Cpg> {
    if log == [] then []
    else
      var last := log[|log| - 1];
      FlushedFrom(log[..|log| - 1], slot) + (if last.slot == slot then last.cpgs else [])
  }

  ghost function Pending(mpg: Batches, slot: int): seq<Cpg> {
    if slot in mpg then mpg[slot].cpgs else []
  }

  /** Every accepted group is waiting or went out exactly once, in the order of acceptance. */
  ghost predicate Conserved(accepted: seq<Accepted>, flushed: seq<Flushed>, mpg: Batches) {
    forall slot :: AcceptedInto(accepted, slot) == FlushedFrom(flushed, slot) + Pending(mpg, slot)
  }

  lemma PlaceConserves(accepted: seq<Accepted>, flushed: seq<Flushed>, mpg: Batches, k: int, c: Cpg, deadline: real)
    requires Conserved(accepted, flushed, mpg)
    ensures Conserved(accepted + [Accepted(k, c, deadline)], flushed, Place(mpg, k, c, deadline))
  {
    var more, after := accepted + [Accepted(k, c, deadline)], Place(mpg, k, c, deadline);
    assert more[..|more| - 1] == accepted;
    forall slot ensures AcceptedInto(more, slot) == FlushedFrom(flushed, slot) + Pending(after, slot) {
      assert AcceptedInto(accepted, slot) == FlushedFrom(flushed, slot) + Pending(mpg, slot);
      if slot == k {
        assert Pending(after, slot) == Pending(mpg, slot) + [c];
        Associate(FlushedFrom(flushed, slot), Pending(mpg, slot), [c]);
      } else {
        assert Pending(after, slot) == Pending(mpg, slot);
      }
    }
  }

  lemma FlushConserves(accepted: seq<Accepted>, flushed: seq<Flushed>, mpg: Batches, k: int, frame: Frame)
    requires Conserved(accepted, flushed, mpg) && k in mpg
    ensures Conserved(accepted, flushed + [Flushed(k, mpg[k].cpgs, frame)], mpg - {k})
  {
    var more, after := flushed + [Flushed(k, mpg[k].cpgs, frame)], mpg - {k};
    assert more[..|more| - 1] == flushed;
    forall slot ensures AcceptedInto(accepted, slot) == FlushedFrom(more, slot) + Pending(after, slot) {
      assert AcceptedInto(accepted, slot) == FlushedFrom(flushed, slot) + Pending(mpg, slot);
      assert Pending(after, slot) == if slot == k then [] else Pending(mpg, slot);
    }
  }

  lemma TriggerConserves(accepted: seq<Accepted>, flushed: seq<Flushed>, mpg: Batches,
                         format: int, src: int, dst: int, n: nat, clock: real)
    requires Conserved(accepted, flushed, mpg)
    ensures Conserved(accepted, flushed, Triggered(mpg, format, src, dst, n, clock))
  {
    var after := Triggered(mpg, format, src, dst, n, clock);
    TriggeredKeeps(mpg, format, src, dst, n, clock);
    forall slot ensures AcceptedInto(accepted, slot) == FlushedFrom(flushed, slot) + Pending(after, slot) {
      assert AcceptedInto(accepted, slot) == FlushedFrom(flushed, slot) + Pending(mpg, slot);
    }
  }

  // ---- deadlines ----

  /**
   The groups waiting in a slot are the last ones accepted into it. Their buffer is
   sent no later than any of their own deadlines, except that a search in vain at
   time `clock` moves an overdue buffer to `clock`.
   */
  ghost predicate InTime(mpg: Batches, accepted: seq<Accepted>, clock: real) {
    forall k :: k in mpg ==>
      var ds := Deadlines(accepted, k);
      && |mpg[k].cpgs| <= |ds|
      && forall i :: |ds| - |mpg[k].cpgs| <= i < |ds| ==> mpg[k].deadline <= ds[i] || mpg[k].deadline <= clock
  }

  /** No waiting group should have been sent by `now`. */
  ghost predicate NothingOverdue(mpg: Batches, accepted: seq<Accepted>, now: real) {
    forall k :: k in mpg ==>
      var ds := Deadlines(accepted, k);
      && |mpg[k].cpgs| <= |ds|
      && forall i :: |ds| - |mpg[k].cpgs| <= i < |ds| ==> ds[i] > now
  }

  function Later(a: real, b: real): real { if a <= b then b else a }

  lemma TriggerInTime(mpg: Batches, accepted: seq<Accepted>, before: real,
                      format: int, src: int, dst: int, n: nat, clock: real)
    requires InTime(mpg, accepted, before)
    ensures InTime(Triggered(mpg, format, src, dst, n, clock), accepted, Later(before, clock))
  {
    hide Deadlines, Triggered;
    TriggeredKeeps(mpg, format, src, dst, n, clock);
  }

  lemma PlaceInTime(mpg: Batches, accepted: seq<Accepted>, clock: real, k: int, c: Cpg, deadline: real)
    requires InTime(mpg, accepted, clock)
    ensures InTime(Place(mpg, k, c, deadline), accepted + [Accepted(k, c, deadline)], clock)
  {
    var more := accepted + [Accepted(k, c, deadline)];
    assert more[..|more| - 1] == accepted;
    var after := Place(mpg, k, c, deadline);
    forall j | j in after
      ensures var ds := Deadlines(more, j);
              && |after[j].cpgs| <= |ds|
              && forall i :: |ds| - |after[j].cpgs| <= i < |ds|
                  ==> after[j].deadline <= ds[i] || after[j].deadline <= clock
    {
      assert Deadlines(more, j) == Deadlines(accepted, j) + (if j == k then [deadline] else []);
    }
  }

  /** Once everything due has been sent, nothing is overdue, if no search took place after `now`. */
  lemma WaitingIsNotOverdue(mpg: Batches, accepted: seq<Accepted>, clock: real, now: real)
    requires InTime(mpg, accepted, clock) && clock <= now && forall k :: k in mpg ==> mpg[k].deadline > now
    ensures NothingOverdue(mpg, accepted, now)
  {
    hide Deadlines;
  }

  /**
   Nothing is sent before it has to be: the deadline of a buffer is that of one of the
   groups waiting in it, or the time of a search in vain.
   */
  ghost predicate NotEarly(mpg: Batches, accepted: seq<Accepted>, searches: seq<real>) {
    forall k :: k in mpg ==> DueFor(mpg[k], Deadlines(accepted, k), searches)
  }

  ghost predicate DueFor(b: Batch, ds: seq<real>, searches: seq<real>) {
    || b.deadline in searches
    || exists i :: |ds| - |b.cpgs| <= i < |ds| && 0 <= i && ds[i] == b.deadline
  }

  lemma TriggerNotEarly(mpg: Batches, accepted: seq<Accepted>, searches: seq<real>,
                        format: int, src: int, dst: int, n: nat, clock: real)
    requires NotEarly(mpg, accepted, searches)
    ensures NotEarly(Triggered(mpg, format, src, dst, n, clock), accepted, searches + [clock])
  {
    hide Deadlines, Triggered;
    TriggeredKeeps(mpg, format, src, dst, n, clock);
    var after := Triggered(mpg, format, src, dst, n, clock);
    forall k | k in after ensures DueFor(after[k], Deadlines(accepted, k), searches + [clock]) {
      assert DueFor(mpg[k], Deadlines(accepted, k), searches);
      assert clock in searches + [clock] && forall t :: t in searches ==> t in searches + [clock];
    }
  }

  lemma PlaceNotEarly(mpg: Batches, accepted: seq<Accepted>, searches: seq<real>, k: int, c: Cpg, deadline: real)
    requires NotEarly(mpg, accepted, searches) && (k in mpg ==> |mpg[k].cpgs| <= |Deadlines(accepted, k)|)
    ensures NotEarly(Place(mpg, k, c, deadline), accepted + [Accepted(k, c, deadline)], searches)
  {
    hide DueFor;
    var more := accepted + [Accepted(k, c, deadline)];
    assert more[..|more| - 1] == accepted;
    var after := Place(mpg, k, c, deadline);
    forall j | j in after ensures DueFor(after[j], Deadlines(more, j), searches) {
      assert Deadlines(more, j) == Deadlines(accepted, j) + (if j == k then [deadline] else []);
      if j != k {
        assert DueFor(mpg[j], Deadlines(accepted, j), searches);
        assert Deadlines(accepted, j) + [] == Deadlines(accepted, j);
      } else {
        PlacedDue(mpg, k, c, deadline, Deadlines(accepted, k), searches);
      }
    }
  }

  lemma PlacedDue(mpg: Batches, k: int, c: Cpg, deadline: real, ds: seq<real>, searches: seq<real>)
    requires k in mpg ==> DueFor(mpg[k], ds, searches) && |mpg[k].cpgs| <= |ds|
    ensures DueFor(Place(mpg, k, c, deadline)[k], ds + [deadline], searches)
  {
    var b, more := Place(mpg, k, c, deadline)[k], ds + [deadline];
    if b.deadline == deadline {
      assert more[|ds|] == b.deadline;
    } else if b.deadline !in searches {
      var i :| |ds| - |mpg[k].cpgs| <= i < |ds| && 0 <= i && ds[i] == b.deadline;
      assert more[i] == b.deadline;
    }
  }

  lemma FewerNotEarly(mpg: Batches, accepted: seq<Accepted>, searches: seq<real>, k: int)
    requires NotEarly(mpg, accepted, searches)
    ensures NotEarly(mpg - {k}, accepted, searches)
  {
    hide DueFor, Deadlines;
  }

  /** So the deadline is the least of the groups waiting, unless a search was later than that. */
  lemma DeadlineIsLeast(mpg: Batches, accepted: seq<Accepted>, searches: seq<real>, latest: real, k: int)
    requires NotEarly(mpg, accepted, searches) && InTime(mpg, accepted, latest) && k in mpg
    requires forall t :: t in searches ==> t <= latest
    requires mpg[k].deadline > latest
    ensures var ds := Deadlines(accepted, k); var first := |ds| - |mpg[k].cpgs|;
            && 0 <= first && mpg[k].deadline in ds[first..]
            && forall d :: d in ds[first..] ==> mpg[k].deadline <= d
  {
    var ds := Deadlines(accepted, k);
    var first := |ds| - |mpg[k].cpgs|;
    assert DueFor(mpg[k], ds, searches);
    var i :| first <= i < |ds| && 0 <= i && ds[i] == mpg[k].deadline;
    assert ds[first..][i - first] == mpg[k].deadline;
  }
}
