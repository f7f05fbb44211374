/**
 The J1939-22 data link layer as the object it is: receive, send and Multi-PG
 buffers and the two pools of session numbers, updated by `send_pgn`, by arriving
 frames and by the job thread.
 */
module DataLink22 {
  import opened Common
  import opened Wire
  import opened Transport22
  import opened MultiPg
  import opened Pool22
  import opened Passes

  type RcvBuffers = map<int, RcvBuf>

  /** How a call to `send_pgn` ends. */
  datatype Outcome = Done | Refused | NeverReturns

  /** Everything the layer stores and everything that has left it. */
  datatype State = State(
    rcv: RcvBuffers, snd: SndBuffers, mpg: Batches, flags: Flags, sent: seq<Frame>, out: seq<Delivery>)

  /** The receive buffers whose deadline has not passed. */
  function Surviving(rcv: RcvBuffers, now: real): RcvBuffers {
    map k | k in rcv && !Expired(rcv[k], now) :: rcv[k]
  }

  /** The Multi-PG buffers not due yet. */
  function Waiting(mpg: Batches, now: real): Batches {
    map k | k in mpg && mpg[k].deadline > now :: mpg[k]
  }

  predicate InPool(r: Release) {
    match r
    case Keep => true
    case FreeRts(n) => 0 <= n < 8
    case FreeBam(n) => 0 <= n < 4
  }

  /** Frames and returned session numbers of the receive timeouts, buffer by buffer. */
  ghost function TimeoutLog(rcv: RcvBuffers, keys: seq<int>, now: real): (seq<Frame>, seq<Release>) {
    if keys == [] then ([], [])
    else
      var last := |keys| - 1;
      var before, r := TimeoutLog(rcv, keys[..last], now), RcvJob(Get(rcv, keys[last]), now);
      (before.0 + r.sent, before.1 + [r.release])
  }

  /** The same for the send buffers. */
  ghost function SendLog(cfg: Config, snd: SndBuffers, keys: seq<int>, now: real, clock: real)
    : (seq<Frame>, seq<Release>)
    requires forall k :: k in snd ==> SndWf(snd[k])
  {
    if keys == [] then ([], [])
    else
      var last := |keys| - 1;
      var before := SendLog(cfg, snd, keys[..last], now, clock);
      if keys[last] !in snd then before
      else
        var r := SndJob(cfg, snd[keys[last]], now, clock);
        (before.0 + r.sent, before.1 + [r.release])
  }

  /** The frame a due Multi-PG buffer is sent in; the slot says to whom. */
  function FlushFrame(slot: int, cs: seq<Cpg>): Frame
    requires Size(cs) <= 64
  {
    var (format, _, src, dst) := MpgUnhash(slot);
    MultiPgFrame(format, cs, src, dst)
  }

  ghost predicate FlushedWell(log: seq<Flushed>) {
    forall f :: f in log ==> Size(f.cpgs) <= 64 && f.frame == FlushFrame(f.slot, f.cpgs)
  }

  /** The due Multi-PG buffers among the keys, as they are sent. */
  ghost function FlushLog(mpg: Batches, keys: seq<int>, now: real): seq<Flushed>
    requires Filled(mpg)
  {
    if keys == [] then []
    else
      var k := keys[|keys| - 1];
      FlushLog(mpg, keys[..|keys| - 1], now)
      + (if k in mpg && mpg[k].deadline <= now then [Flushed(k, mpg[k].cpgs, FlushFrame(k, mpg[k].cpgs))] else [])
  }

  ghost function FramesOf(log: seq<Flushed>): seq<Frame> {
    if log == [] then [] else FramesOf(log[..|log| - 1]) + [log[|log| - 1].frame]
  }

  lemma FramesOfSnoc(log: seq<Flushed>, f: Flushed)
    ensures FramesOf(log + [f]) == FramesOf(log) + [f.frame]
  {
    assert (log + [f])[..|log|] == log;
  }

  lemma SendReleaseInPool(cfg: Config, b: SndBuf, now: real, clock: real)
    requires SndWf(b)
    ensures InPool(SndJob(cfg, b, now, clock).release)
  {
    hide Burst, SendSegment;
  }

  /** The earliest point in time the layer still has to act on is not missed. */
  ghost predicate WakesInTime(wakeup: real, now: real, rcv: RcvBuffers, mpg: Batches, snd: SndBuffers) {
    && wakeup <= now + 5.0
    && (forall k :: k in rcv && rcv[k].deadline != 0.0 ==> now < rcv[k].deadline && wakeup <= rcv[k].deadline)
    && (forall k :: k in mpg ==> now < mpg[k].deadline && wakeup <= mpg[k].deadline)
    && (forall k :: k in snd && snd[k].deadline != 0.0 ==> wakeup <= snd[k].deadline)
  }

  /** The wake-up asked for is the default, or the deadline of a buffer left. */
  ghost predicate WakesForAReason(wakeup: real, now: real, rcv: RcvBuffers, mpg: Batches, snd: SndBuffers) {
    || wakeup == now + 5.0
    || (exists k :: k in rcv && wakeup == rcv[k].deadline)
    || (exists k :: k in mpg && wakeup == mpg[k].deadline)
    || (exists k :: k in snd && wakeup == snd[k].deadline)
  }

  /** A receive buffer whose session number, put in its identifier by the peer, is outside the pool. */
  predicate Stray(b: RcvBuf) {
    if b.dst != GLOBAL then !(0 <= b.session < 8) else !(0 <= b.session < 4)
  }

  function Strays(rcv: RcvBuffers): set<int> {
    set k | k in rcv && Stray(rcv[k])
  }

  /** No session number leaves its pool when the expired receive buffers are dropped. */
  ghost predicate TimeoutsInPool(rcv: RcvBuffers, now: real) {
    forall k :: k in rcv && Expired(rcv[k], now) ==> !Stray(rcv[k])
  }

  /** The receive buffers once those of `keys` whose deadline has passed are gone. */
  function Left(rcv: RcvBuffers, keys: seq<int>, now: real): RcvBuffers {
    map k | k in rcv && !(k in keys && Expired(rcv[k], now)) :: rcv[k]
  }

  lemma ReleaseInPool(b: RcvBuf, now: real)
    ensures InPool(RcvJob(Some(b), now).release) <==> !(Expired(b, now) && Stray(b))
  {
  }

  /** A pass over the receive buffers that got as far as `served` of the keys. */
  ghost predicate TimedOut(v: State, w: State, keys: seq<int>, served: nat, now: real)
    requires served <= |keys|
  {
    var log := TimeoutLog(v.rcv, keys[..served], now);
    w == v.(rcv := Left(v.rcv, keys[..served], now), sent := v.sent + log.0, flags := GiveAll(v.flags, log.1))
  }

  /** The first expired stray buffer ends the pass, and is dropped like those before it. */
  ghost predicate StoppedAt(rcv: RcvBuffers, keys: seq<int>, served: nat, now: real)
    requires served <= |keys|
  {
    && served > 0 && keys[served - 1] in rcv
    && Expired(rcv[keys[served - 1]], now) && Stray(rcv[keys[served - 1]])
    && TimeoutsInPool(Among(rcv, keys[..served - 1]), now)
  }

  function Among(rcv: RcvBuffers, keys: seq<int>): RcvBuffers {
    map k | k in rcv && k in keys :: rcv[k]
  }

  /** Every pass that raises takes exactly one stray buffer with it, so only so many passes raise. */
  lemma StrayGone(rcv: RcvBuffers, keys: seq<int>, served: nat, now: real)
    requires Enumerates(keys, rcv.Keys) && served <= |keys| && StoppedAt(rcv, keys, served, now)
    ensures Strays(Left(rcv, keys[..served], now)) == Strays(rcv) - {keys[served - 1]}
    ensures |Strays(Left(rcv, keys[..served], now))| == |Strays(rcv)| - 1
  {
    var left, last := Left(rcv, keys[..served], now), keys[served - 1];
    NextKey(keys, served - 1);
    forall k ensures k in Strays(left) <==> k in Strays(rcv) - {last} {
      if k in rcv && k in keys[..served - 1] { assert k in Among(rcv, keys[..served - 1]); }
    }
    assert Strays(left) == Strays(rcv) - {last};
  }

  lemma GiveInPool(flags: Flags, r: Release)
    requires Sized(flags)
    ensures Give(flags, r).1 == if InPool(r) then None else Some(IndexError)
  {
  }

  /** One turn of the window loop: the buffer, the frames, and whether the loop goes on. */
  function BurstStep(cfg: Config, b: SndBuf, clock: real): (r: (SndBuf, seq<Frame>, bool))
    requires SndWf(b) && b.state.SendingRtsCts? && b.next < b.num
    ensures SndWf(r.0) && (r.2 ==> r.0.state.SendingRtsCts?)
    ensures r.0.num == b.num && r.0.next == b.next + 1
  {
    var (frame, b1) := SendSegment(b);
    if b1.next == b.num then
      (b1.(deadline := clock + T5, state := WaitingEomAck),
       [frame, EomStatusFrame(b.src, b.dst, b.session, b.size, b.num, b.pgn)], false)
    else if b.next == b.waitOn then (b1.(state := WaitingCts, deadline := clock + T3), [frame], false)
    else if cfg.rtsInterval.Some? then (b1.(deadline := clock + cfg.rtsInterval.value), [frame], false)
    else (b1, [frame], true)
  }

  lemma BurstUnfolds(cfg: Config, b: SndBuf, clock: real)
    requires SndWf(b) && b.state.SendingRtsCts? && b.next < b.num
    ensures var r := BurstStep(cfg, b, clock);
            Burst(cfg, b, clock)
            == if r.2 then (Burst(cfg, r.0, clock).0, r.1 + Burst(cfg, r.0, clock).1) else (r.0, r.1)
  {
    hide SendSegment;
  }

  lemma BurstEmpty(cfg: Config, b: SndBuf, clock: real)
    requires SndWf(b) && b.state.SendingRtsCts? && b.next >= b.num
    ensures Burst(cfg, b, clock) == (b, [])
  {
  }

  // ---- what one pass makes of each dictionary ----

  /** The send buffer under `k` is what one pass makes of it. */
  ghost predicate Served(cfg: Config, k: int, now: real, clock: real, before: SndBuffers, after: SndBuffers) {
    k in before && SndWf(before[k]) && Get(after, k) == SndJob(cfg, before[k], now, clock).buf
  }

  ghost predicate EverySenderServed(cfg: Config, now: real, clock: real, before: SndBuffers, after: SndBuffers) {
    forall k :: if k in before then Served(cfg, k, now, clock, before, after) else k !in after
  }

  ghost function RcvPlan(rcv: RcvBuffers, now: real): Plan<RcvBuf> {
    var result := map k | k in rcv :: RcvJob(Some(rcv[k]), now).buf;
    var left := map k | k in rcv && result[k].Some? :: result[k].value.deadline;
    Plan(rcv, result, left, set k | k in left && left[k] != 0.0)
  }

  ghost function BatchPlan(mpg: Batches, now: real): Plan<Batch> {
    var result := map k | k in mpg :: if mpg[k].deadline > now then Some(mpg[k]) else None;
    var left := map k | k in mpg && result[k].Some? :: result[k].value.deadline;
    Plan(mpg, result, left, left.Keys)
  }

  ghost function SndPlan(cfg: Config, snd: SndBuffers, now: real, clock: real): Plan<SndBuf>
    requires forall k :: k in snd ==> SndWf(snd[k])
  {
    var result := map k | k in snd :: SndJob(cfg, snd[k], now, clock).buf;
    var left := map k | k in snd && result[k].Some? :: result[k].value.deadline;
    Plan(snd, result, left, set k | k in left && left[k] != 0.0)
  }

  lemma RcvPlanAt(first: RcvBuffers, rcv: RcvBuffers, todo: seq<int>, i: nat, now: real, wakeup: real, next: real)
    requires Enumerates(todo, first.Keys) && i <= |todo| && Passed(RcvPlan(first, now), rcv, todo, i, wakeup, next)
    ensures rcv == Left(first, todo[..i], now)
  {
    var p, left := RcvPlan(first, now), Left(first, todo[..i], now);
    assert todo == todo[..i] + todo[i..];
    forall k ensures (k in rcv <==> k in left) && (k in rcv ==> rcv[k] == left[k]) {
      assert k in first.Keys <==> k in todo;
      assert k in rcv ==> k in first.Keys;
      assert k in todo <==> k in todo[..i] || k in todo[i..];
      assert k in todo[..i] ==> Get(rcv, k) == p.result[k] == RcvJob(Some(first[k]), now).buf;
    }
    assert rcv.Keys == left.Keys;
  }

  lemma RcvPassStart(first: RcvBuffers, todo: seq<int>, now: real, wakeup: real)
    requires Enumerates(todo, first.Keys)
    ensures Passed(RcvPlan(first, now), first, todo, 0, wakeup, wakeup)
    ensures TimeoutsInPool(Among(first, todo[..0]), now)
  {
    PassStart(RcvPlan(first, now), todo, wakeup);
  }

  lemma RcvPassAt(first: RcvBuffers, rcv: RcvBuffers, todo: seq<int>, i: nat, now: real, wakeup: real, next: real)
    requires i < |todo| && Passed(RcvPlan(first, now), rcv, todo, i, wakeup, next)
    ensures todo[i] in rcv && todo[i] in first && rcv[todo[i]] == first[todo[i]]
  {
    hide RcvJob;
    PassAt(RcvPlan(first, now), rcv, todo, i, wakeup, next);
  }

  lemma RcvPassNext(first: RcvBuffers, before: RcvBuffers, after: RcvBuffers, todo: seq<int>, i: nat, now: real,
                    wakeup: real, earlier: real, next: real)
    requires i < |todo| && Enumerates(todo, first.Keys) && todo[i] in first
    requires Passed(RcvPlan(first, now), before, todo, i, wakeup, earlier)
    requires after == Put(before, todo[i], RcvJob(Some(first[todo[i]]), now).buf)
    requires next <= earlier && (todo[i] in after && after[todo[i]].deadline != 0.0 ==> next <= after[todo[i]].deadline)
    requires next == earlier || (todo[i] in after && next == after[todo[i]].deadline)
    ensures Passed(RcvPlan(first, now), after, todo, i + 1, wakeup, next)
  {
    hide RcvJob, Passed, Enumerates;
    PassNext(RcvPlan(first, now), before, after, todo, i, wakeup, earlier, next);
  }

  lemma RcvPassDone(first: RcvBuffers, rcv: RcvBuffers, todo: seq<int>, now: real, wakeup: real, next: real)
    requires Enumerates(todo, first.Keys) && Passed(RcvPlan(first, now), rcv, todo, |todo|, wakeup, next)
    ensures rcv == Surviving(first, now) && next <= wakeup
    ensures forall k :: k in rcv && rcv[k].deadline != 0.0 ==> next <= rcv[k].deadline
    ensures next == wakeup || exists k :: k in rcv && next == rcv[k].deadline
  {
    hide RcvJob, Passed, Enumerates, Surviving;
    PassDone(RcvPlan(first, now), rcv, todo, wakeup, next);
    RcvPlanDone(first, rcv, now);
  }

  lemma RcvPlanDone(first: RcvBuffers, rcv: RcvBuffers, now: real)
    requires var p := RcvPlan(first, now);
             forall k :: if k in first then k in p.result && Get(rcv, k) == p.result[k] else k !in rcv
    ensures rcv == Surviving(first, now)
    ensures PlanLeft(RcvPlan(first, now), rcv, map k | k in rcv :: rcv[k].deadline)
  {
    var left := Surviving(first, now);
    forall k ensures (k in rcv <==> k in left) && (k in rcv ==> rcv[k] == left[k]) {
      assert k in first ==> Get(rcv, k) == RcvJob(Some(first[k]), now).buf;
    }
    assert rcv.Keys == left.Keys;
  }

  lemma BatchPlanDone(first: Batches, mpg: Batches, now: real)
    requires var p := BatchPlan(first, now);
             forall k :: if k in first then k in p.result && Get(mpg, k) == p.result[k] else k !in mpg
    ensures mpg == Waiting(first, now)
    ensures var p := BatchPlan(first, now);
            && (forall k :: k in mpg ==> k in first && k in p.due && k in p.left && p.left[k] == mpg[k].deadline)
            && (forall k :: k in first && k in p.left ==> k in mpg)
  {
    var left := Waiting(first, now);
    forall k ensures (k in mpg <==> k in left) && (k in mpg ==> mpg[k] == left[k]) {
      assert k in first ==> Get(mpg, k) == if first[k].deadline > now then Some(first[k]) else None;
    }
    assert mpg.Keys == left.Keys;
  }

  lemma SndPlanDone(cfg: Config, first: SndBuffers, snd: SndBuffers, now: real, clock: real)
    requires forall k :: k in first ==> SndWf(first[k])
    requires var p := SndPlan(cfg, first, now, clock);
             forall k :: if k in first then k in p.result && Get(snd, k) == p.result[k] else k !in snd
    ensures EverySenderServed(cfg, now, clock, first, snd)
    ensures PlanLeft(SndPlan(cfg, first, now, clock), snd, map k | k in snd :: snd[k].deadline)
  {
    hide SndJob, SndWf;
  }

  /** The group `send_pgn` makes of a message of at most 60 bytes. */
  function Group(dataPage: int, pduFormat: int, pduSpecific: int, priority: int, data: seq<int>,
                 format: int, tos: int, tf: int): (c: Cpg)
    requires |data| <= 60
    ensures Wf(c) && c.data == data
  {
    var pgn := PgnValue(dataPage, pduFormat, pduSpecific);
    Cpg(if format == FBFF then 0 else priority % 8, tos % 8, tf % 8,
        (if pduFormat % 0x100 <= 239 then pgn - pgn % 0x100 else pgn) % 0x4_0000, data)
  }

  /** Does a message go to everybody? */
  function Destination(pduFormat: int, pduSpecific: int): int {
    if pduFormat % 0x100 <= 239 then pduSpecific else GLOBAL
  }

  function LongDestination(pduFormat: int, pduSpecific: int): int {
    if pduSpecific == GLOBAL || pduFormat % 0x100 >= 240 then GLOBAL else pduSpecific
  }

  /** All slots of one format, source and destination are taken and too full. */
  ghost predicate NoRoom(mpg: Batches, format: int, src: int, dst: int, length: nat, n: nat) {
    forall s :: 0 <= s < n ==> !HasRoom(mpg, MpgHash(format, s, src, dst), length)
  }

  /** The search for a slot goes round the 256 counters. */
  lemma SearchGoesRound(mpg: Batches, format: int, src: int, dst: int, length: nat, s: nat)
    requires NoRoom(mpg, format, src, dst, length, 256)
    ensures !HasRoom(mpg, MpgHash(format, s, src, dst), length)
  {
    assert MpgHash(format, s, src, dst) == MpgHash(format, s % 0x100, src, dst);
  }

  /**
   A search in vain at `clock` keeps a full buffer waiting through every earlier pass,
   however long ago its groups were due.
   */
  lemma VainSearchPostpones(mpg: Batches, format: int, src: int, dst: int, slots: nat, clock: real, now: real, s: nat)
    requires s < slots <= 256 && MpgHash(format, s, src, dst) in mpg && now < clock
    requires IsByte(format) && IsByte(src) && IsByte(dst)
    ensures MpgHash(format, s, src, dst) in Waiting(Triggered(mpg, format, src, dst, slots, clock), now)
  {
    TriggeredAt(mpg, format, src, dst, slots, clock, s);
  }

  /** So a group whose own deadline has passed can wait through a pass, if a search took place after its time. */
  lemma VainSearchOverdue(mpg: Batches, accepted: seq<Accepted>, format: int, src: int, dst: int, slots: nat,
                          clock: real, now: real, s: nat, i: nat)
    requires s < slots <= 256 && MpgHash(format, s, src, dst) in mpg && now < clock
    requires IsByte(format) && IsByte(src) && IsByte(dst)
    requires var k := MpgHash(format, s, src, dst);
             var ds := Deadlines(accepted, k);
             |mpg[k].cpgs| <= |ds| && |ds| - |mpg[k].cpgs| <= i < |ds| && ds[i] <= now
    ensures !NothingOverdue(Waiting(Triggered(mpg, format, src, dst, slots, clock), now), accepted, now)
  {
    hide MpgHash, Deadlines, Triggered;
    VainSearchPostpones(mpg, format, src, dst, slots, clock, now, s);
    TriggeredKeeps(mpg, format, src, dst, slots, clock);
    var left := Waiting(Triggered(mpg, format, src, dst, slots, clock), now);
    assert MpgHash(format, s, src, dst) in left;
  }

  lemma {:induction false} TriggeredAt(mpg: Batches, format: int, src: int, dst: int, n: nat, clock: real, s: nat)
    requires s < n <= 256 && MpgHash(format, s, src, dst) in mpg
    requires IsByte(format) && IsByte(src) && IsByte(dst)
    ensures var k, after := MpgHash(format, s, src, dst), Triggered(mpg, format, src, dst, n, clock);
            k in after && after[k].deadline == clock
    decreases n
  {
    hide MpgHash;
    TriggeredKeeps(mpg, format, src, dst, n - 1, clock);
    if s < n - 1 { TriggeredAt(mpg, format, src, dst, n - 1, clock, s); }
  }

  /** The pending buffers of one format, source and destination among the first `n` slots. */
  ghost function PendingSlots(mpg: Batches, format: int, src: int, dst: int, n: nat): set<int> {
    set s | 0 <= s < n && MpgHash(format, s, src, dst) in mpg :: MpgHash(format, s, src, dst)
  }

  /** A search in vain means that all slots are pending: with fewer than 256 of them it ends. */
  lemma {:induction false} InVainMeansFull(mpg: Batches, format: int, src: int, dst: int, length: nat, n: nat)
    requires IsByte(format) && IsByte(src) && IsByte(dst) && n <= 256 && NoRoom(mpg, format, src, dst, length, n)
    ensures |PendingSlots(mpg, format, src, dst, n)| == n
  {
    hide MpgHash, MpgUnhash;
    if n > 0 {
      var last := MpgHash(format, n - 1, src, dst);
      InVainMeansFull(mpg, format, src, dst, length, n - 1);
      forall s | 0 <= s < n - 1 ensures MpgHash(format, s, src, dst) != last {
        MpgUnhashRoundTrip(format, s, src, dst);
        MpgUnhashRoundTrip(format, n - 1, src, dst);
      }
      assert !HasRoom(mpg, last, length);
      assert PendingSlots(mpg, format, src, dst, n) == PendingSlots(mpg, format, src, dst, n - 1) + {last};
    } else {
      assert PendingSlots(mpg, format, src, dst, 0) == {};
    }
  }

  /** A buffer goes to the source and destination its groups were accepted for. */
  lemma FlushReachesItsPair(format: int, counter: int, src: int, dst: int, cs: seq<Cpg>)
    requires IsByte(format) && IsByte(counter) && IsByte(src) && IsByte(dst) && Size(cs) <= 64
    ensures FlushFrame(MpgHash(format, counter, src, dst), cs) == MultiPgFrame(format, cs, src, dst)
  {
    hide MpgHash, MpgUnhash;
    MpgUnhashRoundTrip(format, counter, src, dst);
  }

  /** What sending a short message does to the layer, `slot` being the message counter chosen. */
  ghost predicate ShortSent(v: State, w: State, outcome: Outcome, slot: nat, c: Cpg, format: int, src: int, dst: int,
                            timeLimit: real, clock: real)
    requires Wf(c)
  {
    var k := MpgHash(format, slot, src, dst);
    && (outcome == Refused <==> format == FBFF && dst != GLOBAL)
    && (outcome == NeverReturns <==>
          !(format == FBFF && dst != GLOBAL) && timeLimit != 0.0 && NoRoom(v.mpg, format, src, dst, |c.data|, 256))
    && (outcome == Refused ==> w == v)
    && (outcome == Done && timeLimit == 0.0 ==> w == v.(sent := v.sent + [MultiPgFrame(format, [c], src, dst)]))
    && (outcome == Done && timeLimit != 0.0 ==>
          && slot < 256 && HasRoom(v.mpg, k, |c.data|) && NoRoom(v.mpg, format, src, dst, |c.data|, slot)
          && w == v.(mpg := Place(Triggered(v.mpg, format, src, dst, slot, clock), k, c, clock + timeLimit)))
  }

  /** The log of groups taken for sending later, with the deadline each was given. */
  function AcceptedAfter(log: seq<Accepted>, outcome: Outcome, slot: nat, c: Cpg, format: int, src: int, dst: int,
                         timeLimit: real, clock: real): seq<Accepted> {
    if outcome == Done && timeLimit != 0.0 then
      log + [Accepted(MpgHash(format, slot, src, dst), c, clock + timeLimit)]
    else log
  }

  /** Only batched messages search for a slot. */
  function LatestAfter(latest: real, outcome: Outcome, timeLimit: real, clock: real): real {
    if outcome == Refused || timeLimit == 0.0 then latest else Later(latest, clock)
  }

  function SearchesAfter(searches: seq<real>, outcome: Outcome, timeLimit: real, clock: real): seq<real> {
    if outcome == Refused || timeLimit == 0.0 then searches else searches + [clock]
  }

  /** What sending a long message does to the layer, `session` being the number taken. */
  ghost predicate LongSent(cfg: Config, v: State, w: State, outcome: Outcome, session: nat, dst: int, src: int,
                           priority: int, pgn: int, data: seq<int>, clock: real)
  {
    var free := if dst == GLOBAL then v.flags.bam else v.flags.rts;
    && outcome != NeverReturns
    && (outcome == Refused <==> forall i :: 0 <= i < |free| ==> !free[i])
    && (outcome == Refused ==> w == v)
    && (outcome == Done ==>
          && session < |free| && free[session] && (forall i :: 0 <= i < session ==> !free[i])
          && var started, left := Start(cfg, data, dst, src, priority, pgn, session, clock), free[session := false];
             w == v.(flags := if dst == GLOBAL then v.flags.(bam := left) else v.flags.(rts := left),
                     snd := v.snd[Hash(session, src, dst) := started.1], sent := v.sent + [started.0]))
  }

  /** All session numbers given back in one pass, receive buffers first. */
  ghost predicate JobFlags(cfg: Config, v: State, flags: Flags, rcvKeys: seq<int>, sndKeys: seq<int>, now: real,
      clock: real)
    requires forall k :: k in v.snd ==> SndWf(v.snd[k])
  {
    flags == GiveAll(GiveAll(v.flags, TimeoutLog(v.rcv, rcvKeys, now).1), SendLog(cfg, v.snd, sndKeys, now, clock).1)
  }

  lemma LongStarted(cfg: Config, v: State, w: State, session: nat, dst: int, src: int, priority: int, pgn: int,
                    data: seq<int>, clock: real, free: seq<bool>)
    requires free == if dst == GLOBAL then v.flags.bam else v.flags.rts
    requires session < |free| && free[session] && (forall i :: 0 <= i < session ==> !free[i])
    requires var started, left := Start(cfg, data, dst, src, priority, pgn, session, clock), free[session := false];
             w == State(v.rcv, v.snd[Hash(session, src, dst) := started.1], v.mpg,
                        if dst == GLOBAL then Flags(left, v.flags.rts) else Flags(v.flags.bam, left),
                        v.sent + [started.0], v.out)
    ensures LongSent(cfg, v, w, Done, session, dst, src, priority, pgn, data, clock)
  {
  }

  // ---- arriving frames ----

  function AfterRcv(v: State, k: int, r: RcvResult): State {
    v.(rcv := Put(v.rcv, k, r.buf), sent := v.sent + r.sent, out := v.out + r.out, flags := Give(v.flags, r.release).0)
  }

  function AfterSnd(v: State, k: int, r: SndResult): State {
    v.(snd := Put(v.snd, k, r.buf), sent := v.sent + r.sent, out := v.out + r.out, flags := Give(v.flags, r.release).0)
  }

  /** Management frames about a message received here. */
  predicate ToReceiver(m: Cm) {
    m.kind == RTS || m.kind == BAM || m.kind == EOM_STATUS
  }

  predicate ToSender(m: Cm) {
    m.kind == CTS || m.kind == EOM_ACK || m.kind == ABORT
  }

  function CmReceived(cfg: Config, buf: Option<RcvBuf>, priority: int, src: int, dst: int, m: Cm,
      clock: real): RcvResult
  {
    if m.kind == RTS then OnRts(cfg, buf, src, dst, m, clock)
    else if m.kind == BAM then OnBam(buf, src, dst, m, clock)
    else OnEomStatus(buf, priority, src, dst, m)
  }

  function CmAnswered(cfg: Config, buf: Option<SndBuf>, priority: int, src: int, dst: int, m: Cm, data: seq<int>,
                      clock: real): SndResult {
    if m.kind == CTS then OnCts(cfg, buf, src, dst, m, clock)
    else if m.kind == EOM_ACK then OnEomAck(buf, priority, src, dst, m, data, clock)
    else OnAbort(buf, clock)
  }

  /** The frame concerns a message received here. */
  predicate ForReceiver(f: Frame) {
    if f.header.format == PF_FD_TP_DT then |f.data| > 4 else |f.data| >= 12 && ToReceiver(Decode(f.data))
  }

  predicate ForSender(f: Frame) {
    f.header.format == PF_FD_TP_CM && |f.data| >= 12 && ToSender(Decode(f.data))
  }

  /** The exception of a frame about a message received here: the handler's own, or a number outside its pool. */
  function Raised(flags: Flags, r: RcvResult): Option<Error> {
    if r.error.Some? then r.error else Give(flags, r.release).1
  }

  /** The key of the receive buffer a frame belongs to. */
  function RcvKey(f: Frame): int
    requires |f.data| > 4
  {
    Hash(SessionOf(f.data), f.header.source, f.header.specific)
  }

  /** The key of the send buffer an answer belongs to. */
  function SndKey(f: Frame): int
    requires |f.data| > 4
  {
    Hash(SessionOf(f.data), f.header.specific, f.header.source)
  }

  /** A CTS or acknowledgement, not an abort, for a directed transfer under way. */
  predicate ForLiveSession(snd: SndBuffers, f: Frame) {
    && ForSender(f) && Decode(f.data).kind != ABORT
    && SndKey(f) in snd && snd[SndKey(f)].dst != GLOBAL
  }

  /** Deliveries of the groups found in one Multi-PG frame. */
  function Deliveries(priority: int, src: int, dst: int, ps: seq<Pdu>): seq<Delivery> {
    if ps == [] then []
    else [Deliver(priority, ps[0].pgn, src, dst, ps[0].data)] + Deliveries(priority, src, dst, ps[1..])
  }

  class DataLink22 {
    const cfg: Config
    var rcv: map<int, RcvBuf>
    var snd: map<int, SndBuf>
    var mpg: map<int, Batch>
    var bam: seq<bool>
    var rts: seq<bool>
    ghost var sent: seq<Frame>
    ghost var out: seq<Delivery>
    ghost var accepted: seq<Accepted>
    ghost var flushed: seq<Flushed>
    /** The latest clock reading of a search for a slot. */
    ghost var latest: real
    /** The clock readings of all searches for a slot. */
    ghost var searches: seq<real>

    /** Multi-PG book-keeping: nothing lost, nothing late, nothing too long. */
    ghost predicate Batched()
      reads this
    {
      && Filled(mpg) && Conserved(accepted, flushed, mpg) && FlushedWell(flushed)
      && InTime(mpg, accepted, latest) && NotEarly(mpg, accepted, searches)
      && (forall t :: t in searches ==> t <= latest)
    }

    ghost predicate Valid()
      reads this
    {
      && cfg.Valid() && |bam| == 4 && |rts| == 8
      && (forall k :: k in snd ==> SndWf(snd[k]))
      && Batched()
    }

    ghost function View(): State
      reads this
    {
      State(rcv, snd, mpg, Flags(bam, rts), sent, out)
    }

    /** A node that only originates: its taken numbers are those of its live send buffers. */
    ghost predicate Originating()
      reads this
    {
      rcv == map[] && Pool(snd, Flags(bam, rts))
    }

    constructor (cfg: Config)
      requires cfg.Valid()
      ensures Valid() && Originating() && this.cfg == cfg
      ensures View() == State(map[], map[], map[], Flags(bam, rts), [], [])
      ensures accepted == [] && flushed == [] && latest == 0.0 && searches == []
    {
      this.cfg := cfg;
      rcv, snd, mpg := map[], map[], map[];
      bam := [true, true, true, true];
      rts := [true, true, true, true, true, true, true, true];
      sent, out, accepted, flushed := [], [], [], [];
      latest, searches := 0.0, [];
    }

    method PutRtsCtsSession(session: int) returns (error: Option<Error>)
      modifies this`rts
      ensures (Flags(bam, rts), error) == Give(old(Flags(bam, rts)), FreeRts(session))
    {
      if !(0 <= session < |rts|) { return Some(IndexError); }
      rts := rts[session := true];
      return None;
    }

    method PutBamSession(session: int) returns (error: Option<Error>)
      modifies this`bam
      ensures (Flags(bam, rts), error) == Give(old(Flags(bam, rts)), FreeBam(session))
    {
      if !(0 <= session < |bam|) { return Some(IndexError); }
      bam := bam[session := true];
      return None;
    }

    // ---- sending ----

    /** Priority and bytes of a Multi-PG frame. */
    method BuildMultiPg(cs: seq<Cpg>) returns (priority: int, data: seq<int>)
      requires Size(cs) <= 64
      ensures priority == LowestPriority(cs, 7) && data == Pack(cs)
    {
      priority, data := 7, [];
      for i := 0 to |cs|
        invariant priority == LowestPriority(cs[..i], 7) && data == Body(cs[..i])
      {
        var c := cs[i];
        LowestPrioritySnoc(cs[..i], c, 7);
        BodySnoc(cs[..i], c);
        assert cs[..i + 1] == cs[..i] + [c];
        priority := Min(c.priority, priority);
        data := data + [c.tos * 32 + c.tf * 4 + c.pgn / 0x1_0000 % 4, c.pgn / 0x100 % 0x100, c.pgn % 0x100, |c.data|];
        data := data + c.data;
      }
      assert cs[..|cs|] == cs;
      var length := PaddedLength(|data|);
      var paddingCnt := 0;
      ghost var body := data;
      while |data| < length
        invariant |body| <= |data| <= length
        invariant data == body + Padding(|data| - |body|)
        invariant paddingCnt == Min(|data| - |body|, 3)
      {
        ghost var n := |data| - |body|;
        if paddingCnt < 3 {
          data := data + [0];
          paddingCnt := paddingCnt + 1;
        } else {
          data := data + [0xAA];
        }
        assert Padding(n + 1) == Padding(n) + [if n < 3 then 0 else 0xAA];
      }
    }

    /** Sends groups in one frame of the given format. */
    method SendMultiPg(format: int, cs: seq<Cpg>, src: int, dst: int)
      requires Size(cs) <= 64
      modifies this`sent
      ensures sent == old(sent) + [MultiPgFrame(format, cs, src, dst)]
    {
      var priority, data := BuildMultiPg(cs);
      if format == FBFF {
        sent := sent + [Frame(false, Header(0, 0, 0, src, 0), data)];
      } else {
        sent := sent + [PduFrame(PF_MULTI_PG, priority, src, dst, data)];
      }
    }

    /**
     Looks for a Multi-PG buffer with room and tells those without to send at once.
     With all 256 message counters in vain the search starts over and never ends.
     */
    method FindSlot(format: int, src: int, dst: int, length: nat, clock: real) returns (slot: nat)
      modifies this`mpg
      ensures slot <= 256
      ensures mpg == Triggered(old(mpg), format, src, dst, slot, clock)
      ensures NoRoom(old(mpg), format, src, dst, length, slot)
      ensures slot < 256 ==> HasRoom(old(mpg), MpgHash(format, slot, src, dst), length)
    {
      slot := 0;
      while slot < 256
        invariant slot <= 256
        invariant mpg == Triggered(old(mpg), format, src, dst, slot, clock)
        invariant NoRoom(old(mpg), format, src, dst, length, slot)
      {
        var k := MpgHash(format, slot, src, dst);
        TriggeredKeeps(old(mpg), format, src, dst, slot, clock);
        if k !in mpg || mpg[k].fill <= 60 - length { return; }
        mpg := mpg[k := mpg[k].(deadline := clock)];
        slot := slot + 1;
      }
    }

    /** A message of at most 60 bytes: sent at once, or joined to a waiting buffer. */
    method SendShort(dataPage: int, pduFormat: int, pduSpecific: int, priority: int, src: int, data: seq<int>,
                     timeLimit: real, format: int, tos: int, tf: int, clock: real)
      returns (outcome: Outcome, ghost slot: nat)
      requires Valid() && |data| <= 60
      modifies this`mpg, this`sent, this`accepted, this`latest, this`searches
      ensures Valid() && flushed == old(flushed)
      ensures var c := Group(dataPage, pduFormat, pduSpecific, priority, data, format, tos, tf);
              var dst := Destination(pduFormat, pduSpecific);
              && ShortSent(old(View()), View(), outcome, slot, c, format, src, dst, timeLimit, clock)
              && accepted == AcceptedAfter(old(accepted), outcome, slot, c, format, src, dst, timeLimit, clock)
              && latest == LatestAfter(old(latest), outcome, timeLimit, clock)
              && searches == SearchesAfter(old(searches), outcome, timeLimit, clock)
    {
      hide Filled, Conserved, InTime, NotEarly, FlushedWell, Triggered, Place, Group, MultiPgFrame, HasRoom, SndWf,
           Destination, MpgHash;
      slot := 0;
      var c := Group(dataPage, pduFormat, pduSpecific, priority, data, format, tos, tf);
      var dst := Destination(pduFormat, pduSpecific);
      if format == FBFF && dst != GLOBAL { return Refused, slot; }
      outcome := Done;
      if timeLimit == 0.0 {
        SendMultiPg(format, [c], src, dst);
        return;
      }
      var s := FindSlot(format, src, dst, |data|, clock);
      slot := s;
      latest := Later(latest, clock);
      searches := searches + [clock];
      Trigger(old(mpg), old(latest), old(searches), format, src, dst, s, clock);
      if s == 256 { return NeverReturns, slot; }
      Join(MpgHash(format, s, src, dst), c, clock + timeLimit);
    }

    /** A search in vain moves deadlines only. */
    lemma Trigger(before: Batches, earlier: real, searched: seq<real>, format: int, src: int, dst: int, n: nat,
        clock: real)
      requires Filled(before) && Conserved(accepted, flushed, before) && InTime(before, accepted, earlier)
      requires NotEarly(before, accepted, searched)
      requires mpg == Triggered(before, format, src, dst, n, clock) && latest == Later(earlier, clock)
      ensures Filled(mpg) && Conserved(accepted, flushed, mpg) && InTime(mpg, accepted, latest)
      ensures NotEarly(mpg, accepted, searched + [clock])
      ensures forall k, length :: HasRoom(mpg, k, length) == HasRoom(before, k, length)
    {
      TriggeredKeeps(before, format, src, dst, n, clock);
      TriggeredFilled(before, format, src, dst, n, clock);
      TriggerConserves(accepted, flushed, before, format, src, dst, n, clock);
      TriggerInTime(before, accepted, earlier, format, src, dst, n, clock);
      TriggerNotEarly(before, accepted, searched, format, src, dst, n, clock);
    }

    lemma WaitingCounted(before: Batches, log: seq<Accepted>, clock: real, k: int)
      requires InTime(before, log, clock)
      ensures k in before ==> |before[k].cpgs| <= |Deadlines(log, k)|
    {
      hide Deadlines;
    }

    /** Adds a group to a buffer with room, or opens one. */
    method Join(k: int, c: Cpg, deadline: real)
      requires Batched() && Wf(c) && HasRoom(mpg, k, |c.data|)
      modifies this`mpg, this`accepted
      ensures Batched() && mpg == Place(old(mpg), k, c, deadline)
      ensures accepted == old(accepted) + [Accepted(k, c, deadline)]
    {
      hide Filled, Conserved, InTime, NotEarly, FlushedWell, Deadlines, Wf;
      PlaceFilled(mpg, k, c, deadline);
      PlaceConserves(accepted, flushed, mpg, k, c, deadline);
      PlaceInTime(mpg, accepted, latest, k, c, deadline);
      assert k in mpg ==> |mpg[k].cpgs| <= |Deadlines(accepted, k)| by { WaitingCounted(mpg, accepted, latest, k); }
      PlaceNotEarly(mpg, accepted, searches, k, c, deadline);
      accepted := accepted + [Accepted(k, c, deadline)];
      if k !in mpg {
        mpg := mpg[k := Batch(deadline, [c], 4 + |c.data|)];
      } else {
        var b := mpg[k].(fill := mpg[k].fill + 4 + |c.data|);
        if b.deadline > deadline { b := b.(deadline := deadline); }
        mpg := mpg[k := b.(cpgs := b.cpgs + [c])];
      }
    }

    /** A longer message: refused when its pool is used up, otherwise started with the lowest free number. */
    method SendLong(dataPage: int, pduFormat: int, pduSpecific: int, priority: int, src: int, data: seq<int>,
        clock: real)
      returns (outcome: Outcome, ghost session: nat)
      requires Valid() && IsByte(pduSpecific) && |data| > 60
      modifies this`snd, this`bam, this`rts, this`sent
      ensures Valid()
      ensures LongSent(cfg, old(View()), View(), outcome, session, LongDestination(pduFormat, pduSpecific),
                       src, priority, PgnValue(dataPage, pduFormat, pduSpecific), data, clock)
      ensures old(Originating()) && IsByte(src) && outcome == Done ==>
                Hash(session, src, LongDestination(pduFormat, pduSpecific)) !in old(snd)
      ensures old(Originating()) && IsByte(src) ==> Originating()
    {
      hide Filled, Conserved, InTime, NotEarly, FlushedWell, Pool;
      session := 0;
      var pgn := PgnValue(dataPage, pduFormat, pduSpecific);
      var dst, number := pduSpecific, None;
      if pduSpecific == GLOBAL || pduFormat % 0x100 >= 240 {
        dst := GLOBAL;
        number, bam := Acquire(bam);
      } else {
        number, rts := Acquire(rts);
      }
      if number.None? { return Refused, session; }
      session := number.value;
      var started := Start(cfg, data, dst, src, priority, pgn, number.value, clock);
      sent := sent + [started.0];
      snd := snd[Hash(number.value, src, dst) := started.1];
      SegmentsPositive(|data|);
      if old(Originating()) && IsByte(src) {
        PoolStart(old(snd), old(Flags(bam, rts)), started.1, Flags(bam, rts));
      }
      outcome := Done;
      LongStarted(cfg, old(View()), View(), session, dst, src, priority, pgn, data, clock,
                  if dst == GLOBAL then old(bam) else old(rts));
      return Done, session;
    }

    lemma SegmentsPositive(size: int)
      requires size > 60
      ensures Segments(size) >= 1
    {
    }

    // ---- the job thread ----

    /** Drops one receive buffer if its deadline has passed. */
    method ServeReceiver(k: int, now: real, wakeup: real) returns (next: real, error: Option<Error>)
      requires Valid() && k in rcv
      modifies this`rcv, this`bam, this`rts, this`sent
      ensures Valid()
      ensures var r := RcvJob(Some(old(rcv[k])), now);
              && View() == old(View()).(rcv := Put(old(rcv), k, r.buf), sent := old(sent) + r.sent,
                                        flags := Give(old(Flags(bam, rts)), r.release).0)
              && error == Give(old(Flags(bam, rts)), r.release).1
      ensures next <= wakeup && (k in rcv && rcv[k].deadline != 0.0 ==> next <= rcv[k].deadline)
      ensures next == wakeup || (k in rcv && next == rcv[k].deadline)
    {
      hide Filled, Conserved, InTime, NotEarly, FlushedWell, SndWf, AbortFrame;
      next, error := wakeup, None;
      var buf := rcv[k];
      assert rcv == Put(rcv, k, Some(buf));
      if buf.deadline != 0.0 {
        if buf.deadline > now {
          if next > buf.deadline { next := buf.deadline; }
        } else {
          rcv := rcv - {k};
          if buf.dst != GLOBAL {
            sent := sent + [AbortFrame(buf.dst, buf.src, buf.session, TIMEOUT, buf.pgn)];
            error := PutRtsCtsSession(buf.session);
          } else {
            error := PutBamSession(buf.session);
          }
        }
      }
    }

    /**
     Drops the receive buffers whose deadline has passed. A number outside its pool ends
     the pass: the buffers up to it are served, the others are as they were.
     */
    method ServeReceivers(now: real, wakeup: real)
      returns (next: real, error: Option<Error>, ghost keys: seq<int>, ghost served: nat)
      requires Valid()
      modifies this`rcv, this`bam, this`rts, this`sent
      ensures Valid()
      ensures Enumerates(keys, old(rcv).Keys) && served <= |keys|
      ensures TimedOut(old(View()), View(), keys, served, now)
      ensures error.None? <==> TimeoutsInPool(old(rcv), now)
      ensures error.None? ==> served == |keys| && rcv == Surviving(old(rcv), now)
      ensures error.Some? ==> error.value == IndexError && StoppedAt(old(rcv), keys, served, now)
      ensures next <= wakeup
      ensures error.None? ==> forall k :: k in rcv && rcv[k].deadline != 0.0 ==> next <= rcv[k].deadline
      ensures error.None? ==> next == wakeup || exists k :: k in rcv && next == rcv[k].deadline
    {
      hide RcvJob, Give, InPool, Passed, Enumerates, Filled, Conserved, InTime, NotEarly, FlushedWell, SndWf, Stray,
           Expired, TimeoutsInPool, Among, Left, Surviving, StoppedAt, RcvPlan;
      var todo := ListKeys(rcv.Keys);
      keys := todo;
      next, error, served := wakeup, None, 0;
      ghost var plan := RcvPlan(rcv, now);
      RcvPassStart(rcv, todo, now, wakeup);
      for i := 0 to |todo|
        invariant Valid() && error.None? && served == i && next <= wakeup
        invariant sent == old(sent) + TimeoutLog(old(rcv), todo[..i], now).0
        invariant Flags(bam, rts) == GiveAll(old(Flags(bam, rts)), TimeoutLog(old(rcv), todo[..i], now).1)
        invariant Passed(plan, rcv, todo, i, wakeup, next)
        invariant TimeoutsInPool(Among(old(rcv), todo[..i]), now)
      {
        var k := todo[i];
        ghost var before, earlier, flags := rcv, next, Flags(bam, rts);
        ghost var r := RcvJob(Some(old(rcv)[k]), now);
        RcvPassAt(old(rcv), rcv, todo, i, now, wakeup, next);
        TimeoutLogNext(old(rcv), todo, i, now);
        GiveInPool(flags, r.release);
        ReleaseInPool(old(rcv)[k], now);
        next, error := ServeReceiver(k, now, next);
        served := i + 1;
        RcvPassNext(old(rcv), before, rcv, todo, i, now, wakeup, earlier, next);
        Associate(old(sent), TimeoutLog(old(rcv), todo[..i], now).0, r.sent);
        GiveAllSnoc(old(Flags(bam, rts)), TimeoutLog(old(rcv), todo[..i], now).1, r.release);
        if error.Some? {
          RcvPlanAt(old(rcv), rcv, todo, i + 1, now, wakeup, next);
          Stops(old(rcv), todo, i, now);
          return;
        }
        AmongNext(old(rcv), todo, i, now);
      }
      assert todo[..|todo|] == todo;
      RcvPlanAt(old(rcv), rcv, todo, |todo|, now, wakeup, next);
      RcvPassDone(old(rcv), rcv, todo, now, wakeup, next);
      AmongAll(old(rcv), todo, now);
    }

    lemma Stops(all: RcvBuffers, todo: seq<int>, i: nat, now: real)
      requires i < |todo| && todo[i] in all && TimeoutsInPool(Among(all, todo[..i]), now)
      requires Expired(all[todo[i]], now) && Stray(all[todo[i]])
      ensures StoppedAt(all, todo, i + 1, now) && !TimeoutsInPool(all, now)
    {
      var k := todo[i];
      assert todo[..i + 1][..i] == todo[..i];
      assert k in all && Expired(all[k], now) && Stray(all[k]);
    }

    lemma AmongNext(all: RcvBuffers, todo: seq<int>, i: nat, now: real)
      requires i < |todo| && todo[i] in all && TimeoutsInPool(Among(all, todo[..i]), now)
      requires !(Expired(all[todo[i]], now) && Stray(all[todo[i]]))
      ensures TimeoutsInPool(Among(all, todo[..i + 1]), now)
    {
      forall k | k in Among(all, todo[..i + 1]) && Expired(all[k], now) ensures !Stray(all[k]) {
        if k != todo[i] { assert k in Among(all, todo[..i]); }
      }
    }

    lemma AmongAll(all: RcvBuffers, todo: seq<int>, now: real)
      requires Enumerates(todo, all.Keys) && TimeoutsInPool(Among(all, todo), now)
      ensures TimeoutsInPool(all, now)
    {
      forall k | k in all ensures k in Among(all, todo) {
        assert k in all.Keys;
      }
    }

    lemma TimeoutLogNext(all: RcvBuffers, keys: seq<int>, i: nat, now: real)
      requires i < |keys| && keys[i] in all
      ensures var before, r := TimeoutLog(all, keys[..i], now), RcvJob(Some(all[keys[i]]), now);
              TimeoutLog(all, keys[..i + 1], now) == (before.0 + r.sent, before.1 + [r.release])
    {
      assert keys[..i + 1][..i] == keys[..i];
    }

    lemma GiveAllSnoc(flags: Flags, rs: seq<Release>, r: Release)
      ensures GiveAll(flags, rs + [r]) == Give(GiveAll(flags, rs), r).0
    {
      assert (rs + [r])[..|rs|] == rs;
    }

    lemma BatchGone(before: Batches, taken: seq<Accepted>, log: seq<Flushed>, clock: real, searched: seq<real>, k: int)
      requires Filled(before) && Conserved(taken, log, before) && FlushedWell(log) && k in before
      requires InTime(before, taken, clock) && NotEarly(before, taken, searched)
      ensures Size(before[k].cpgs) <= 64
      ensures var after, more := before - {k}, log + [Flushed(k, before[k].cpgs, FlushFrame(k, before[k].cpgs))];
              && Filled(after) && Conserved(taken, more, after) && FlushedWell(more)
              && InTime(after, taken, clock) && NotEarly(after, taken, searched)
    {
      hide Conserved, NotEarly, Deadlines, FlushFrame;
      FlushConserves(taken, log, before, k, FlushFrame(k, before[k].cpgs));
      FewerNotEarly(before, taken, searched, k);
    }

    /** Sends one Multi-PG buffer if it is due. */
    method ServeBatch(k: int, now: real, wakeup: real) returns (next: real)
      requires Valid() && k in mpg
      modifies this`mpg, this`sent, this`flushed
      ensures Valid()
      ensures next <= wakeup && (k in mpg ==> next <= mpg[k].deadline)
      ensures next == wakeup || (k in mpg && next == mpg[k].deadline)
      ensures mpg == Put(old(mpg), k, if old(mpg[k]).deadline > now then Some(old(mpg[k])) else None)
      ensures if old(mpg[k]).deadline > now then
                sent == old(sent) && flushed == old(flushed)
              else
                var f := Flushed(k, old(mpg[k]).cpgs, FlushFrame(k, old(mpg[k]).cpgs));
                sent == old(sent) + [f.frame] && flushed == old(flushed) + [f]
    {
      hide Filled, Conserved, FlushedWell, InTime, NotEarly, SndWf, MpgUnhash;
      next := wakeup;
      var buf := mpg[k];
      assert mpg == Put(mpg, k, Some(buf));
      if buf.deadline > now {
        if next > buf.deadline { next := buf.deadline; }
      } else {
        BatchGone(mpg, accepted, flushed, latest, searches, k);
        var (format, _, src, dst) := MpgUnhash(k);
        SendMultiPg(format, buf.cpgs, src, dst);
        flushed := flushed + [Flushed(k, buf.cpgs, FlushFrame(k, buf.cpgs))];
        mpg := mpg - {k};
      }
    }

    /** Sends the Multi-PG buffers that are due. */
    method ServeBatches(now: real, wakeup: real) returns (next: real, ghost keys: seq<int>)
      requires Valid()
      modifies this`mpg, this`sent, this`flushed
      ensures Valid() && next <= wakeup
      ensures Enumerates(keys, old(mpg).Keys)
      ensures flushed == old(flushed) + FlushLog(old(mpg), keys, now)
      ensures View() == old(View()).(mpg := Waiting(old(mpg), now),
                                     sent := old(sent) + FramesOf(FlushLog(old(mpg), keys, now)))
      ensures forall k :: k in mpg ==> next <= mpg[k].deadline
      ensures next == wakeup || exists k :: k in mpg && next == mpg[k].deadline
    {
      hide Conserved, InTime, NotEarly, FlushedWell, FlushFrame, Passed, Enumerates, SndWf, Waiting;
      var todo := ListKeys(mpg.Keys);
      keys := todo;
      next := wakeup;
      ghost var plan := BatchPlan(mpg, now);
      PassStart(plan, todo, wakeup);
      for i := 0 to |todo|
        invariant Valid()
        invariant flushed == old(flushed) + FlushLog(old(mpg), todo[..i], now)
        invariant sent == old(sent) + FramesOf(FlushLog(old(mpg), todo[..i], now))
        invariant Passed(plan, mpg, todo, i, wakeup, next)
      {
        ghost var before, earlier := mpg, next;
        PassAt(plan, mpg, todo, i, wakeup, next);
        FlushLogNext(old(mpg), todo, i, now);
        next := ServeBatch(todo[i], now, next);
        PassNext(plan, before, mpg, todo, i, wakeup, earlier, next);
        ghost var log := FlushLog(old(mpg), todo[..i], now);
        ghost var f := Flushed(todo[i], old(mpg)[todo[i]].cpgs, FlushFrame(todo[i], old(mpg)[todo[i]].cpgs));
        FramesOfSnoc(log, f);
        Associate(old(flushed), log, [f]);
        Associate(old(sent), FramesOf(log), [f.frame]);
      }
      assert todo[..|todo|] == todo;
      PassDone(plan, mpg, todo, wakeup, next);
      BatchPlanDone(old(mpg), mpg, now);
    }

    lemma FlushLogNext(all: Batches, keys: seq<int>, i: nat, now: real)
      requires i < |keys| && keys[i] in all && Filled(all)
      ensures var k := keys[i]; var log := FlushLog(all, keys[..i], now);
              FlushLog(all, keys[..i + 1], now)
              == if all[k].deadline <= now then log + [Flushed(k, all[k].cpgs, FlushFrame(k, all[k].cpgs))] else log
    {
      assert keys[..i + 1][..i] == keys[..i];
    }

    /** The header goes into the stored chunk, a short one is padded in place. */
    method BuildSegment(session: int, segment: int, chunk: seq<int>) returns (data: seq<int>, stored: seq<int>)
      ensures (data, stored) == DtData(session, segment, chunk)
    {
      stored := [session % 16 * 16] + Bytes(segment, FIELD) + chunk;
      data := stored;
      if |data| >= 64 {
        data := data[..64];
      } else {
        ghost var head := data;
        var length := PaddedLength(|data|);
        while |data| < length
          invariant |head| <= |data| <= length
          invariant data == head + Repeat(255, |data| - |head|)
        {
          ghost var n := |data| - |head|;
          data := data + [255];
          assert Repeat(255, n + 1) == Repeat(255, n) + [255];
        }
        stored := data;
      }
    }

    /** Sends segment `next` of buffer `k`; the stored chunk is not what it was afterwards. */
    method SendTpDt(k: int)
      requires Valid() && k in snd && snd[k].next < snd[k].num
      modifies this`snd, this`sent
      ensures Valid()
      ensures var (frame, buf) := SendSegment(old(snd[k]));
              View() == old(View()).(snd := old(snd)[k := buf.(next := buf.next - 1)], sent := old(sent) + [frame])
    {
      hide DtData, Filled, Conserved, InTime, NotEarly, FlushedWell;
      var buf := snd[k];
      var package := buf.next;
      var i := if package == -1 then buf.num - 1 else package;
      var data, stored := BuildSegment(buf.session, package + 1, buf.data[i]);
      sent := sent + [PduFrame(PF_FD_TP_DT, 7, buf.src, buf.dst, data)];
      snd := snd[k := buf.(data := buf.data[i := stored])];
    }

    /** One turn of the window loop. */
    method SendOne(k: int, clock: real) returns (more: bool)
      requires Valid() && k in snd && snd[k].state.SendingRtsCts? && snd[k].next < snd[k].num
      modifies this`snd, this`sent
      ensures Valid()
      ensures var r := BurstStep(cfg, old(snd[k]), clock);
              more == r.2 && View() == old(View()).(snd := old(snd)[k := r.0], sent := old(sent) + r.1)
    {
      hide SendSegment, Filled, Conserved, InTime, NotEarly, FlushedWell, CmData;
      var buf := snd[k];
      SendSegmentMoves(buf);
      SendTpDt(k);
      snd := snd[k := snd[k].(next := snd[k].next + 1)];
      more := true;
      ghost var frame := SendSegment(buf).0;
      if buf.next + 1 == buf.num {
        var status := EomStatusFrame(buf.src, buf.dst, buf.session, buf.size, buf.num, buf.pgn);
        sent := sent + [status];
        Associate(old(sent), [frame], [status]);
        snd := snd[k := snd[k].(deadline := clock + T5, state := WaitingEomAck)];
        more := false;
      } else if buf.next == buf.waitOn {
        snd := snd[k := snd[k].(state := WaitingCts, deadline := clock + T3)];
        more := false;
      } else if cfg.rtsInterval.Some? {
        snd := snd[k := snd[k].(deadline := clock + cfg.rtsInterval.value)];
        more := false;
      }
    }

    /** Sends segments of one window until it is used up, the message ends or the segment interval starts. */
    method SendWindow(k: int, clock: real)
      requires Valid() && k in snd && snd[k].state.SendingRtsCts?
      modifies this`snd, this`sent
      ensures Valid()
      ensures var (buf, frames) := Burst(cfg, old(snd[k]), clock);
              View() == old(View()).(snd := old(snd)[k := buf], sent := old(sent) + frames)
    {
      hide BurstStep, SndWf, Burst, Filled, Conserved, InTime, NotEarly, FlushedWell;
      var more := true;
      ghost var goal := Burst(cfg, snd[k], clock);
      ghost var emitted: seq<Frame> := [];
      while more && snd[k].next < snd[k].num
        invariant Valid() && k in snd && snd == old(snd)[k := snd[k]]
        invariant sent == old(sent) + emitted
        invariant more ==> snd[k].state.SendingRtsCts?
        invariant more ==> goal.0 == Burst(cfg, snd[k], clock).0
                           && goal.1 == emitted + Burst(cfg, snd[k], clock).1
        invariant !more ==> goal == (snd[k], emitted)
        decreases more, snd[k].num - snd[k].next
      {
        ghost var r := BurstStep(cfg, snd[k], clock);
        BurstUnfolds(cfg, snd[k], clock);
        more := SendOne(k, clock);
        Associate(old(sent), emitted, r.1);
        if more { Associate(emitted, r.1, Burst(cfg, snd[k], clock).1); }
        emitted := emitted + r.1;
      }
      if more { BurstEmpty(cfg, snd[k], clock); }
    }

    lemma SendSegmentMoves(b: SndBuf)
      requires SndWf(b) && b.next < b.num
      ensures var b1 := SendSegment(b).1;
              && b1 == b.(data := b1.data, next := b.next + 1)
              && (b1.next < b1.num || !b.state.SendingBam? ==> SndWf(b1))
    {
    }

    /** One pass over one send buffer. */
    method ServeSender(k: int, now: real, clock: real, wakeup: real) returns (next: real)
      requires Valid() && k in snd
      modifies this`snd, this`bam, this`rts, this`sent
      ensures Valid()
      ensures View() == AfterSnd(old(View()), k, SndJob(cfg, old(snd[k]), now, clock))
      ensures next <= wakeup && (k in snd && snd[k].deadline != 0.0 ==> next <= snd[k].deadline)
      ensures next == wakeup || (k in snd && next == snd[k].deadline)
      ensures old(Originating()) ==> Originating()
    {
      hide Filled, Conserved, InTime, NotEarly, FlushedWell, Pool, Burst, SendSegment, CmData;
      next := wakeup;
      ghost var flags := Flags(bam, rts);
      var buf := snd[k];
      if old(Originating()) { PoolServed(cfg, snd, flags, k, now, clock); }
      SendReleaseInPool(cfg, buf, now, clock);
      ghost var r := SndJob(cfg, buf, now, clock);
      GiveInPool(flags, r.release);
      assert snd == Put(snd, k, Some(buf));
      if buf.deadline == 0.0 || buf.deadline > now {
        if buf.deadline != 0.0 && next > buf.deadline { next := buf.deadline; }
        assert sent + r.sent == sent;
      } else if buf.state.SendingRtsCts? {
        SendWindow(k, clock);
        if next > snd[k].deadline { next := snd[k].deadline; }
      } else if buf.state.SendingBam? {
        SendBroadcast(k, clock);
        if next > snd[k].deadline { next := snd[k].deadline; }
      } else {
        Finish(k, now, clock);
      }
      assert out == out + r.out;
    }

    /** The next segment of a broadcast; the status has its turn after the last one. */
    method SendBroadcast(k: int, clock: real)
      requires Valid() && k in snd && snd[k].state.SendingBam?
      modifies this`snd, this`sent
      ensures Valid() && k in snd
      ensures var (frame, b1) := SendSegment(old(snd[k]));
              var b2 := b1.(state := if b1.next < b1.num then SendingBam else SendingEomStatus,
                            deadline := clock + cfg.bamInterval);
              View() == old(View()).(snd := old(snd)[k := b2], sent := old(sent) + [frame])
    {
      hide Filled, Conserved, InTime, NotEarly, FlushedWell, Pool;
      var buf := snd[k];
      SendSegmentMoves(buf);
      SendTpDt(k);
      snd := snd[k := snd[k].(next := snd[k].next + 1, deadline := clock + cfg.bamInterval,
                              state := if buf.next + 1 < buf.num then SendingBam else SendingEomStatus)];
    }

    /** The states in which a due buffer goes. */
    method Finish(k: int, now: real, clock: real)
      requires Valid() && k in snd && !(snd[k].deadline == 0.0 || snd[k].deadline > now)
      requires !snd[k].state.SendingRtsCts? && !snd[k].state.SendingBam?
      modifies this`snd, this`bam, this`rts, this`sent
      ensures Valid()
      ensures View() == AfterSnd(old(View()), k, SndJob(cfg, old(snd[k]), now, clock))
    {
      hide Filled, Conserved, InTime, NotEarly, FlushedWell, Pool, CmData, SendSegment, Burst;
      var buf := snd[k];
      var error := None;
      ghost var r := SndJob(cfg, buf, now, clock);
      assert out == out + r.out;
      match buf.state {
        case WaitingCts =>
          sent := sent + [AbortFrame(buf.src, buf.dst, buf.session, TIMEOUT, buf.pgn)];
          snd := snd - {k};
          error := PutRtsCtsSession(buf.session);
        case WaitingEomAck =>
          assert sent == sent + r.sent;
          snd := snd - {k};
          error := PutRtsCtsSession(buf.session);
        case EomAckReceived =>
          assert sent == sent + r.sent;
          snd := snd - {k};
          error := PutRtsCtsSession(buf.session);
        case SendingEomStatus =>
          sent := sent + [EomStatusFrame(buf.src, buf.dst, buf.session, buf.size, buf.num, buf.pgn)];
          snd := snd - {k};
          error := PutBamSession(buf.session);
        case TransmissionFinished =>
          assert sent == sent + r.sent;
          snd := snd - {k};
      }
    }

    /** Serves every send buffer once. */
    method ServeSenders(now: real, clock: real, wakeup: real) returns (next: real, ghost keys: seq<int>)
      requires Valid()
      modifies this`snd, this`bam, this`rts, this`sent
      ensures Valid() && next <= wakeup
      ensures Enumerates(keys, old(snd).Keys)
      ensures EverySenderServed(cfg, now, clock, old(snd), snd)
      ensures var log := SendLog(cfg, old(snd), keys, now, clock);
              sent == old(sent) + log.0 && Flags(bam, rts) == GiveAll(old(Flags(bam, rts)), log.1)
      ensures forall k :: k in snd && snd[k].deadline != 0.0 ==> next <= snd[k].deadline
      ensures next == wakeup || exists k :: k in snd && next == snd[k].deadline
      ensures old(Originating()) ==> Originating()
    {
      hide Filled, Conserved, InTime, NotEarly, FlushedWell, Pool, SndJob, Passed, Enumerates, Give, EverySenderServed;
      var todo := ListKeys(snd.Keys);
      keys := todo;
      next := wakeup;
      ghost var plan := SndPlan(cfg, snd, now, clock);
      PassStart(plan, todo, wakeup);
      for i := 0 to |todo|
        invariant Valid()
        invariant sent == old(sent) + SendLog(cfg, old(snd), todo[..i], now, clock).0
        invariant Flags(bam, rts) == GiveAll(old(Flags(bam, rts)), SendLog(cfg, old(snd), todo[..i], now, clock).1)
        invariant Passed(plan, snd, todo, i, wakeup, next)
        invariant old(Originating()) ==> Originating()
      {
        var k := todo[i];
        ghost var before, earlier := snd, next;
        PassAt(plan, snd, todo, i, wakeup, next);
        SendLogNext(cfg, old(snd), todo, i, now, clock);
        ghost var log := SendLog(cfg, old(snd), todo[..i], now, clock);
        ghost var r := SndJob(cfg, snd[k], now, clock);
        next := ServeSender(k, now, clock, next);
        PassNext(plan, before, snd, todo, i, wakeup, earlier, next);
        Associate(old(sent), log.0, r.sent);
        GiveAllSnoc(old(Flags(bam, rts)), log.1, r.release);
      }
      assert todo[..|todo|] == todo;
      PassDone(plan, snd, todo, wakeup, next);
      SndPlanDone(cfg, old(snd), snd, now, clock);
    }

    lemma SendLogNext(config: Config, all: SndBuffers, keys: seq<int>, i: nat, now: real, clock: real)
      requires forall k :: k in all ==> SndWf(all[k])
      requires i < |keys| && keys[i] in all
      ensures var before, r := SendLog(config, all, keys[..i], now, clock), SndJob(config, all[keys[i]], now, clock);
              SendLog(config, all, keys[..i + 1], now, clock) == (before.0 + r.sent, before.1 + [r.release])
    {
      hide SndJob;
      assert keys[..i + 1][..i] == keys[..i];
    }

    /**
     One pass of the job thread. Unless a receive buffer expires whose session number
     is outside the pool, every buffer is served as if it were alone, no receive
     session whose deadline has passed survives, no contained parameter group whose
     own deadline has passed is still waiting, and the layer asks to be woken no
     later than the next deadline. Otherwise the pass ends with the first such buffer,
     which is dropped, and the Multi-PG and send buffers keep waiting.
     */
    method AsyncJobThread(now: real, clock: real)
      returns (wakeup: real, error: Option<Error>, ghost rcvKeys: seq<int>, ghost served: nat,
               ghost mpgKeys: seq<int>, ghost sndKeys: seq<int>)
      requires Valid()
      modifies this`rcv, this`snd, this`mpg, this`bam, this`rts, this`sent, this`flushed
      ensures Valid()
      ensures error.None? <==> TimeoutsInPool(old(rcv), now)
      ensures Enumerates(rcvKeys, old(rcv).Keys) && served <= |rcvKeys|
      ensures error.Some? ==>
                && error.value == IndexError && StoppedAt(old(rcv), rcvKeys, served, now)
                && TimedOut(old(View()), View(), rcvKeys, served, now) && flushed == old(flushed)
                && |Strays(rcv)| == |Strays(old(rcv))| - 1
      ensures error.None? ==>
                && Enumerates(mpgKeys, old(mpg).Keys) && Enumerates(sndKeys, old(snd).Keys) && out == old(out)
                && rcv == Surviving(old(rcv), now) && mpg == Waiting(old(mpg), now)
                && EverySenderServed(cfg, now, clock, old(snd), snd)
                && flushed == old(flushed) + FlushLog(old(mpg), mpgKeys, now)
                && JobFlags(cfg, old(View()), Flags(bam, rts), rcvKeys, sndKeys, now, clock)
                && sent == old(sent) + TimeoutLog(old(rcv), rcvKeys, now).0
                           + FramesOf(FlushLog(old(mpg), mpgKeys, now)) + SendLog(cfg, old(snd), sndKeys, now, clock).0
                && WakesInTime(wakeup, now, rcv, mpg, snd) && WakesForAReason(wakeup, now, rcv, mpg, snd)
      ensures error.None? && now >= latest ==> NothingOverdue(mpg, accepted, now)
      ensures old(Originating()) ==> Originating()
    {
      hide Conserved, FlushedWell, NotEarly, Pool, Filled, Give, RcvJob, SndJob, Enumerates, Strays, StoppedAt, Left,
           TimeoutsInPool, Surviving, Waiting, WakesInTime, WakesForAReason, EverySenderServed, SndWf,
           NothingOverdue, InTime;
      mpgKeys, sndKeys := [], [];
      var next := now + 5.0;
      wakeup, error, rcvKeys, served := ServeReceivers(now, next);
      assert error.None? ==> rcvKeys[..served] == rcvKeys;
      if old(Originating()) { NothingReceived(old(rcv), rcvKeys, now, old(Flags(bam, rts))); }
      if error.Some? {
        StrayGone(old(rcv), rcvKeys, served, now);
        return;
      }
      ghost var w1 := wakeup;
      wakeup, mpgKeys := ServeBatches(now, wakeup);
      ghost var w2 := wakeup;
      wakeup, sndKeys := ServeSenders(now, clock, wakeup);
      WakeUp(now, w1, w2, wakeup, old(rcv), old(mpg), snd);
      if now >= latest { WaitingIsNotOverdue(mpg, accepted, latest, now); }
    }

    lemma WakeUp(now: real, w1: real, w2: real, w3: real, firstRcv: RcvBuffers, firstMpg: Batches, left: SndBuffers)
      requires var r := Surviving(firstRcv, now);
               && w1 <= now + 5.0 && (forall k :: k in r && r[k].deadline != 0.0 ==> w1 <= r[k].deadline)
               && (w1 == now + 5.0 || exists k :: k in r && w1 == r[k].deadline)
      requires var b := Waiting(firstMpg, now);
               && w2 <= w1 && (forall k :: k in b ==> w2 <= b[k].deadline)
               && (w2 == w1 || exists k :: k in b && w2 == b[k].deadline)
      requires && w3 <= w2 && (forall k :: k in left && left[k].deadline != 0.0 ==> w3 <= left[k].deadline)
               && (w3 == w2 || exists k :: k in left && w3 == left[k].deadline)
      ensures WakesInTime(w3, now, Surviving(firstRcv, now), Waiting(firstMpg, now), left)
      ensures WakesForAReason(w3, now, Surviving(firstRcv, now), Waiting(firstMpg, now), left)
    {
    }

    lemma NothingReceived(none: RcvBuffers, keys: seq<int>, now: real, flags: Flags)
      requires none == map[] && Enumerates(keys, none.Keys)
      ensures TimeoutsInPool(none, now) && Surviving(none, now) == map[]
      ensures GiveAll(flags, TimeoutLog(none, keys, now).1) == flags
    {
      CountKeys(keys, none.Keys);
    }

    // ---- arriving frames ----

    /** FD.TP.CM; a returned session number outside its pool raises after everything else is done. */
    method ProcessTpCm(priority: int, src: int, dst: int, data: seq<int>, clock: real) returns (error: Option<Error>)
      requires Valid() && IsBytes(data)
      modifies this`rcv, this`snd, this`bam, this`rts, this`sent, this`out
      ensures Valid()
      ensures |data| < 12 ==> error.None? && View() == old(View())
      ensures |data| >= 12 ==> var m := Decode(data);
                if ToReceiver(m) then
                  var k := Hash(m.session, src, dst);
                  var r := CmReceived(cfg, Get(old(rcv), k), priority, src, dst, m, clock);
                  View() == AfterRcv(old(View()), k, r) && error == Give(old(Flags(bam, rts)), r.release).1
                else if ToSender(m) then
                  var k := Hash(m.session, dst, src);
                  var r := CmAnswered(cfg, Get(old(snd), k), priority, src, dst, m, data, clock);
                  && View() == AfterSnd(old(View()), k, r) && error == Give(old(Flags(bam, rts)), r.release).1
                  && (old(Originating()) && k in old(snd) && old(snd)[k].dst != GLOBAL && m.kind != ABORT
                      ==> Originating())
                else error == Some(RuntimeError) && View() == old(View())
    {
      hide Filled, Conserved, InTime, NotEarly, FlushedWell, Pool, Hash;
      if |data| < 12 { return None; }
      var m := Decode(data);
      if m.kind == RTS || m.kind == BAM || m.kind == EOM_STATUS {
        error := ProcessAnnouncement(priority, src, dst, m, clock);
      } else if m.kind == CTS || m.kind == EOM_ACK || m.kind == ABORT {
        FieldNonNegative(data[4..7]);
        error := ProcessAnswer(priority, src, dst, m, data, clock);
      } else {
        error := Some(RuntimeError);
      }
    }

    /** RTS, BAM and end of message status. */
    method ProcessAnnouncement(priority: int, src: int, dst: int, m: Cm, clock: real) returns (error: Option<Error>)
      requires Valid() && ToReceiver(m)
      modifies this`rcv, this`bam, this`rts, this`sent, this`out
      ensures Valid()
      ensures var k := Hash(m.session, src, dst);
              var r := CmReceived(cfg, Get(old(rcv), k), priority, src, dst, m, clock);
              View() == AfterRcv(old(View()), k, r) && error == Give(old(Flags(bam, rts)), r.release).1
    {
      hide Filled, Conserved, InTime, NotEarly, FlushedWell, Pool, Hash, CmData, SndWf;
      error := None;
      var k := Hash(m.session, src, dst);
      ghost var r := CmReceived(cfg, Get(rcv, k), priority, src, dst, m, clock);
      NothingAdded(sent, out);
      if m.kind == RTS {
        if k in rcv {
          sent := sent + [AbortFrame(dst, src, m.session, BUSY, m.pgn)];
          error := PutRtsCtsSession(m.session);
          assert rcv == Put(rcv, k, Some(rcv[k]));
          return;
        }
        var window := Min(cfg.maxCmdt, Min(m.byte7, m.segments));
        rcv := rcv[k := RcvBuf(m.pgn, m.session, m.size, m.segments, 1, window, Some(window), [], clock + T2, src,
            dst)];
        sent := sent + [CtsFrame(dst, src, m.session, window, 1, m.pgn)];
      } else if m.kind == EOM_STATUS {
        if k !in rcv {
          assert rcv == Put(rcv, k, None);
          error := PutRtsCtsSession(m.session);
          return;
        }
        var b := rcv[k];
        if b.size == m.size && b.num == m.segments {
          out := out + [Deliver(priority, b.pgn, src, dst, b.data)];
          if dst != GLOBAL {
            sent := sent + [EomAckFrame(dst, src, m.session, m.size, m.segments, b.pgn)];
          }
        } else {
          sent := sent + [AbortFrame(dst, src, m.session, RESOURCES, b.pgn)];
        }
        rcv := rcv - {k};
        error := PutRtsCtsSession(m.session);
      } else {
        if k in rcv {
          rcv := rcv - {k};
          error := PutBamSession(m.session);
          return;
        }
        rcv := rcv[k := RcvBuf(m.pgn, m.session, m.size, m.segments, 1, 0, None, [], clock + T1, src, dst)];
      }
    }

    lemma NothingAdded(frames: seq<Frame>, ds: seq<Delivery>)
      ensures frames + [] == frames && ds + [] == ds
    {
    }

    /** CTS, end of message acknowledgement and abort. */
    method ProcessAnswer(priority: int, src: int, dst: int, m: Cm, data: seq<int>, clock: real)
        returns (error: Option<Error>)
      requires Valid() && ToSender(m) && m.segments >= 0
      modifies this`snd, this`rts, this`sent, this`out
      ensures Valid()
      ensures var k := Hash(m.session, dst, src);
              var r := CmAnswered(cfg, Get(old(snd), k), priority, src, dst, m, data, clock);
              && View() == AfterSnd(old(View()), k, r) && error == Give(old(Flags(bam, rts)), r.release).1
              && (old(Originating()) && k in old(snd) && old(snd)[k].dst != GLOBAL && m.kind != ABORT ==> Originating())
    {
      hide Filled, Conserved, InTime, NotEarly, FlushedWell, Pool, Hash, CmData, AbortFrame;
      error := None;
      var k := Hash(m.session, dst, src);
      ghost var r := CmAnswered(cfg, Get(snd, k), priority, src, dst, m, data, clock);
      if old(Originating()) && k in snd && snd[k].dst != GLOBAL && m.kind != ABORT {
        PoolAnswered(cfg, snd, Flags(bam, rts), k, priority, src, dst, m, data, clock);
      }
      NothingAdded(sent, out);
      if m.kind == ABORT {
        if k in snd && snd[k].state.WaitingCts? {
          snd := snd[k := snd[k].(state := TransmissionFinished, deadline := clock)];
        } else {
          assert snd == Put(snd, k, Get(snd, k));
        }
        return;
      }
      if k !in snd {
        sent := sent + [AbortFrame(dst, src, m.session, RESOURCES, m.pgn)];
        assert snd == Put(snd, k, None);
        error := PutRtsCtsSession(m.session);
        return;
      }
      if m.kind == EOM_ACK {
        out := out + [ToSubscribers(priority, m.pgn, src, dst, data)];
        snd := snd[k := snd[k].(state := EomAckReceived, deadline := clock)];
      } else {
        ProcessGrant(k, m, clock);
      }
    }

    /** A clear to send for live buffer `k`: hold the connection open, or send the segments asked for. */
    method ProcessGrant(k: int, m: Cm, clock: real)
      requires Valid() && k in snd && m.segments >= 0
      modifies this`snd
      ensures Valid()
      ensures forall src, dst ::
                OnCts(cfg, Some(old(snd)[k]), src, dst, m, clock) == SndResult(Get(snd, k), [], [], Keep)
      ensures snd == Put(old(snd), k, Get(snd, k)) && k in snd
    {
      hide Filled, Conserved, InTime, NotEarly, FlushedWell, Pool;
      if m.byte7 == 0 {
        snd := snd[k := snd[k].(deadline := clock + TH)];
        return;
      }
      var count, all := m.byte7, snd[k].num;
      var next := m.segments - 1;
      if count > all { count := all; }
      if count > cfg.maxCmdt { count := cfg.maxCmdt; }
      if count > all - next { count := all - next; }
      snd := snd[k := snd[k].(next := next, waitOn := next + count - 1, state := SendingRtsCts, deadline := clock)];
    }

    /** FD.TP.DT: a segment that is not the expected one is dropped. */
    method ProcessTpDt(src: int, dst: int, data: seq<int>, clock: real) returns (error: Option<Error>)
      requires Valid()
      modifies this`rcv, this`sent
      ensures Valid()
      ensures |data| <= 4 ==> error.None? && View() == old(View())
      ensures |data| > 4 ==>
                var k := Hash(SessionOf(data), src, dst);
                var r := OnDt(Get(old(rcv), k), src, dst, data, clock);
                View() == AfterRcv(old(View()), k, r) && error == r.error
    {
      hide Filled, Conserved, InTime, NotEarly, FlushedWell, Pool, Hash, CmData, SndWf;
      error := None;
      if |data| <= 4 { return; }
      var session, segment := SessionOf(data), SegmentOf(data);
      var k := Hash(session, src, dst);
      NothingAdded(sent, out);
      if segment == 0 || k !in rcv || rcv[k].next != segment {
        assert rcv == Put(rcv, k, Get(rcv, k));
        return;
      }
      var b := rcv[k].(data := rcv[k].data + data[4..], next := segment + 1);
      if |b.data| >= b.size {
        b := b.(data := Take(b.data, b.size));
        if dst != GLOBAL { b := b.(deadline := clock + T1); }
        rcv := rcv[k := b];
        return;
      }
      rcv := rcv[k := b];
      if dst != GLOBAL && b.window.None? { return Some(KeyError); }
      if dst != GLOBAL && segment >= b.border {
        var window := b.window.value;
        sent := sent + [CtsFrame(dst, src, session, Min(window, b.num - b.border), b.border + 1, b.pgn)];
        rcv := rcv[k := b.(border := Min(b.border + window, b.num), deadline := clock + T2)];
        return;
      }
      rcv := rcv[k := b.(deadline := clock + T1)];
    }

    /** Takes a Multi-PG frame apart and hands on the plain groups in it. */
    method ProcessMultiPg(priority: int, src: int, dst: int, data: seq<int>)
      requires Valid()
      modifies this`out
      ensures Valid()
      ensures View() == old(View()).(out := old(out) + Deliveries(priority, src, dst, Parse(data)))
    {
      hide Filled, Conserved, InTime, NotEarly, FlushedWell, Deliver, Deliveries, Parse, IsPlain, Field, EndOf, SndWf;
      var rest, more := data, true;
      ghost var done: seq<Delivery> := [];
      while more
        invariant Valid() && out == old(out) + done
        invariant Deliveries(priority, src, dst, Parse(data))
                  == done + if more then Deliveries(priority, src, dst, Parse(rest)) else []
        decreases more, |rest|
      {
        ParseStep(priority, src, dst, rest);
        if |rest| <= 4 || rest[0] / 32 % 8 == 0 {
          more := false;
        } else {
          var end := EndOf(rest);
          ghost var tail := Deliveries(priority, src, dst, Parse(rest[end..]));
          if IsPlain(rest) {
            var d := Deliver(priority, Field(rest), src, dst, rest[4..end]);
            out := out + [d];
            Associate(old(out), done, [d]);
            Associate(done, [d], tail);
            done := done + [d];
          }
          rest := rest[end..];
        }
      }
    }

    /** What the head of the data contributes. */
    lemma ParseStep(priority: int, src: int, dst: int, data: seq<int>)
      ensures Deliveries(priority, src, dst, Parse(data)) ==
              if |data| <= 4 || data[0] / 32 % 8 == 0 then []
              else
                (if IsPlain(data) then [Deliver(priority, Field(data), src, dst, data[4..EndOf(data)])] else [])
                + Deliveries(priority, src, dst, Parse(data[EndOf(data)..]))
    {
      hide Deliver;
      if |data| > 4 && data[0] / 32 % 8 != 0 {
        var rest := Parse(data[EndOf(data)..]);
        if IsPlain(data) {
          var p := Pdu(Field(data), data[4..EndOf(data)]);
          assert Parse(data) == [p] + rest && ([p] + rest)[1..] == rest;
        } else {
          assert Parse(data) == rest;
        }
      }
    }

    /**
     A frame from the bus, for the identifiers of this layer's protocols. Multi-PG is
     passive; the transport protocol is only for destinations this node owns, and
     then exactly one buffer is touched, as `Receive` and `Answer` say. Only a control
     byte nobody knows, or a number outside its pool, raises.
     */
    method NotifyTransport(f: Frame, clock: real, owned: bool) returns (error: Option<Error>)
      requires Valid() && IsBytes(f.data)
      requires IsTransport(f.header) || (f.header.dataPage == 0 && f.header.format == PF_MULTI_PG)
      modifies this`rcv, this`snd, this`bam, this`rts, this`sent, this`out
      ensures Valid()
      ensures var h, takesPart := f.header, owned || f.header.specific == GLOBAL;
              if h.format == PF_MULTI_PG then
                var ds := Deliveries(h.priority, h.source, h.specific, Parse(f.data));
                error.None? && View() == old(View()).(out := old(out) + ds)
              else if !takesPart then
                error.None? && View() == old(View())
              else if ForReceiver(f) then
                var r := Receive(cfg, Get(old(rcv), RcvKey(f)), f, clock);
                View() == AfterRcv(old(View()), RcvKey(f), r) && error == Raised(old(Flags(bam, rts)), r)
              else if ForSender(f) then
                var r := Answer(cfg, Get(old(snd), SndKey(f)), f, clock);
                && View() == AfterSnd(old(View()), SndKey(f), r)
                && error == Give(old(Flags(bam, rts)), r.release).1
                && (old(Originating()) && ForLiveSession(old(snd), f) ==> Originating())
              else
                && View() == old(View())
                && error == if h.format == PF_FD_TP_CM && |f.data| >= 12 then Some(RuntimeError) else None
    {
      hide Filled, Conserved, InTime, NotEarly, FlushedWell, Pool, Hash, CmData, SndWf, Decode, OnRts, OnBam,
           OnEomStatus, OnDt, OnCts, OnEomAck, OnAbort, AfterRcv, AfterSnd, Deliveries, Parse;
      error := None;
      var mid := f.header;
      var dst := f.header.specific;
      var owns := dst == GLOBAL || owned;
      if mid.format == PF_MULTI_PG {
        ProcessMultiPg(mid.priority, mid.source, dst, f.data);
      } else if owns {
        if mid.format == PF_FD_TP_CM {
          DecodedSession(f.data);
          if ForReceiver(f) {
            NothingRaised(Get(rcv, RcvKey(f)), mid.priority, mid.source, dst, Decode(f.data), clock);
          }
          error := ProcessTpCm(mid.priority, mid.source, dst, f.data, clock);
        } else {
          if |f.data| > 4 { NothingReleased(Get(rcv, RcvKey(f)), mid.source, dst, f.data, clock); }
          error := ProcessTpDt(mid.source, dst, f.data, clock);
        }
      }
    }

    lemma NothingRaised(buf: Option<RcvBuf>, priority: int, src: int, dst: int, m: Cm, clock: real)
      requires ToReceiver(m)
      ensures CmReceived(cfg, buf, priority, src, dst, m, clock).error.None?
    {
    }

    lemma NothingReleased(buf: Option<RcvBuf>, src: int, dst: int, data: seq<int>, clock: real)
      requires |data| > 4
      ensures OnDt(buf, src, dst, data, clock).release.Keep?
    {
    }

    lemma DecodedSession(data: seq<int>)
      ensures |data| >= 12 ==> Decode(data).session == SessionOf(data)
    {
    }

    /** The two ways a message is sent, by its length. */
    method SendPgn(dataPage: int, pduFormat: int, pduSpecific: int, priority: int, src: int, data: seq<int>,
                   timeLimit: real, format: int, tos: int, tf: int, clock: real)
      returns (outcome: Outcome, ghost number: nat)
      requires Valid() && IsByte(pduSpecific)
      modifies this`snd, this`mpg, this`bam, this`rts, this`sent, this`accepted, this`latest, this`searches
      ensures Valid()
      ensures if |data| <= 60 then
                ShortSent(old(View()), View(), outcome, number,
                          Group(dataPage, pduFormat, pduSpecific, priority, data, format, tos, tf), format, src,
                          Destination(pduFormat, pduSpecific), timeLimit, clock)
              else
                LongSent(cfg, old(View()), View(), outcome, number, LongDestination(pduFormat, pduSpecific),
                         src, priority, PgnValue(dataPage, pduFormat, pduSpecific), data, clock)
      ensures |data| <= 60 ==>
                var c := Group(dataPage, pduFormat, pduSpecific, priority, data, format, tos, tf);
                var dst := Destination(pduFormat, pduSpecific);
                && accepted == AcceptedAfter(old(accepted), outcome, number, c, format, src, dst, timeLimit, clock)
                && latest == LatestAfter(old(latest), outcome, timeLimit, clock)
                && searches == SearchesAfter(old(searches), outcome, timeLimit, clock)
      ensures |data| > 60 ==> accepted == old(accepted) && latest == old(latest) && searches == old(searches)
      ensures old(Originating()) && IsByte(src) ==> Originating()
    {
      hide Filled, Conserved, InTime, NotEarly, FlushedWell, Pool, ShortSent, LongSent, Group, SndWf, Hash;
      if |data| <= 60 {
        outcome, number := SendShort(dataPage, pduFormat, pduSpecific, priority, src, data, timeLimit, format, tos,
            tf, clock);
      } else {
        outcome, number := SendLong(dataPage, pduFormat, pduSpecific, priority, src, data, clock);
      }
    }
  }
}
