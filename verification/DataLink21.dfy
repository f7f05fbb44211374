/**
 The J1939-21 data link layer as the object it is: three dictionaries updated by
 `send_pgn`, by arriving frames and by the job thread. Every method is tied to
 the per-buffer functions of Transport21, for which the protocol is proved.
 */
module DataLink21 {
  import opened Common
  import opened Wire
  import opened Transport21
  import opened Passes

  /** A message waiting for its address pair to become free. */
  datatype Queued = Queued(
    hash: int, pduSpecific: int, priority: int, src: int, pgn: int, data: seq<int>, dst: int)

  /** Python's `que[hash] = item`: a newer message takes the place of a waiting one. */
  function Enqueue(que: seq<Queued>, item: Queued): (r: seq<Queued>)
    ensures item in r
    ensures forall q :: q in r ==> q == item || (q in que && q.hash != item.hash) || q in que
  {
    if que == [] then [item]
    else if que[0].hash == item.hash then [item] + que[1..]
    else [que[0]] + Enqueue(que[1..], item)
  }

  ghost predicate Distinct(que: seq<Queued>) {
    forall i, j :: 0 <= i < j < |que| ==> que[i].hash != que[j].hash
  }

  /** At most one message waits per address pair, before and after. */
  lemma {:induction false} EnqueueDistinct(que: seq<Queued>, item: Queued)
    requires Distinct(que)
    ensures Distinct(Enqueue(que, item))
    ensures forall q :: q in Enqueue(que, item) <==> q == item || (q in que && q.hash != item.hash)
  {
    if que != [] && que[0].hash != item.hash { EnqueueDistinct(que[1..], item); }
  }

  /**
   A message for a pair that has one waiting takes its place in the queue; one for
   another pair comes last. The order of the others is kept.
   */
  lemma {:induction false} EnqueuePlace(que: seq<Queued>, item: Queued, i: nat)
    requires Distinct(que) && i <= |que|
    requires if i < |que| then que[i].hash == item.hash else forall q :: q in que ==> q.hash != item.hash
    ensures Enqueue(que, item) == if i < |que| then que[i := item] else que + [item]
  {
    if que != [] && que[0].hash != item.hash {
      var rest := que[1..];
      RestDistinct(que);
      hide Distinct;
      EnqueuePlace(rest, item, i - 1);
      assert que == [que[0]] + rest;
      if i < |que| { UpdateRest(que[0], rest, i - 1, item); }
    }
  }

  lemma RestDistinct(que: seq<Queued>)
    requires Distinct(que) && que != []
    ensures Distinct(que[1..]) && forall q :: q in que[1..] ==> q in que
  {
  }

  lemma UpdateRest(q: Queued, rest: seq<Queued>, i: nat, item: Queued)
    requires i < |rest|
    ensures ([q] + rest)[i + 1 := item] == [q] + rest[i := item]
  {
  }

  function StartQueued(cfg: Config, q: Queued, clock: real): (Frame, SndBuf) {
    Start(cfg, q.data, q.dst, q.src, q.priority, q.pgn, q.pduSpecific, clock)
  }

  type RcvBuffers = map<int, RcvBuf>
  type SndBuffers = map<int, SndBuf>

  /** The receive buffers whose deadline has not passed. */
  function Surviving(rcv: RcvBuffers, now: real): RcvBuffers {
    map k | k in rcv && !Expired(rcv[k], now) :: rcv[k]
  }

  /** Frames of the receive timeouts, buffer by buffer. */
  ghost function TimeoutLog(rcv: RcvBuffers, keys: seq<int>, now: real): seq<Frame> {
    if keys == [] then []
    else
      var last := |keys| - 1;
      TimeoutLog(rcv, keys[..last], now) + RcvJob(Get(rcv, keys[last]), now).1
  }

  /** Frames of the send buffers, buffer by buffer. */
  ghost function SendLog(cfg: Config, snd: SndBuffers, keys: seq<int>, now: real, clock: real): seq<Frame>
    requires forall k :: k in snd ==> SndWf(snd[k])
  {
    if keys == [] then []
    else
      var last := |keys| - 1;
      SendLog(cfg, snd, keys[..last], now, clock)
      + (if keys[last] in snd then SndJob(cfg, snd[keys[last]], now, clock).1 else [])
  }

  /** The buffer under `k` is what one pass makes of it. */
  ghost predicate Served(cfg: Config, k: int, now: real, clock: real, before: SndBuffers, after: SndBuffers) {
    k in before && SndWf(before[k]) && Get(after, k) == SndJob(cfg, before[k], now, clock).0
  }

  /** What one pass makes of the receive buffers. */
  ghost function RcvPlan(rcv: RcvBuffers, now: real): Plan<RcvBuf> {
    var result := map k | k in rcv :: RcvJob(Some(rcv[k]), now).0;
    var left := map k | k in rcv && result[k].Some? :: result[k].value.deadline;
    Plan(rcv, result, left, set k | k in left && left[k] != 0.0)
  }

  ghost function SndPlan(cfg: Config, snd: SndBuffers, now: real, clock: real): Plan<SndBuf>
    requires forall k :: k in snd ==> SndWf(snd[k])
  {
    var result := map k | k in snd :: SndJob(cfg, snd[k], now, clock).0;
    var left := map k | k in snd && result[k].Some? :: result[k].value.deadline;
    Plan(snd, result, left, set k | k in left && left[k] != 0.0)
  }

  lemma RcvPlanDone(first: RcvBuffers, rcv: RcvBuffers, now: real)
    requires var p := RcvPlan(first, now);
             forall k :: if k in first then k in p.result && Get(rcv, k) == p.result[k] else k !in rcv
    ensures rcv == Surviving(first, now)
    ensures PlanLeft(RcvPlan(first, now), rcv, map k | k in rcv :: rcv[k].deadline)
  {
    var left := Surviving(first, now);
    forall k ensures (k in rcv <==> k in left) && (k in rcv ==> rcv[k] == left[k]) {
      assert k in first ==> Get(rcv, k) == RcvJob(Some(first[k]), now).0;
    }
    assert rcv.Keys == left.Keys;
  }

  lemma SndPlanDone(cfg: Config, first: SndBuffers, snd: SndBuffers, now: real, clock: real)
    requires forall k :: k in first ==> SndWf(first[k])
    requires var p := SndPlan(cfg, first, now, clock);
             forall k :: if k in first then k in p.result && Get(snd, k) == p.result[k] else k !in snd
    ensures forall k :: if k in first then Served(cfg, k, now, clock, first, snd) else k !in snd
    ensures PlanLeft(SndPlan(cfg, first, now, clock), snd, map k | k in snd :: snd[k].deadline)
  {
    hide SndJob, SndWf;
  }

  lemma TimeoutLogNext(rcv: RcvBuffers, keys: seq<int>, i: nat, now: real)
    requires i < |keys| && keys[i] in rcv
    ensures TimeoutLog(rcv, keys[..i + 1], now)
         == TimeoutLog(rcv, keys[..i], now) + RcvJob(Some(rcv[keys[i]]), now).1
  {
    hide RcvJob;
    assert keys[..i + 1][..i] == keys[..i];
  }

  lemma SendLogNext(cfg: Config, snd: SndBuffers, keys: seq<int>, i: nat, now: real, clock: real)
    requires forall k :: k in snd ==> SndWf(snd[k])
    requires i < |keys| && keys[i] in snd
    ensures SendLog(cfg, snd, keys[..i + 1], now, clock)
         == SendLog(cfg, snd, keys[..i], now, clock) + SndJob(cfg, snd[keys[i]], now, clock).1
  {
    assert keys[..i + 1][..i] == keys[..i];
  }

  /** The earliest point in time the layer still has to act on is not missed. */
  ghost predicate WakesInTime(wakeup: real, now: real, rcv: RcvBuffers, snd: SndBuffers) {
    && wakeup <= now + 5.0
    && (forall k :: k in rcv && rcv[k].deadline != 0.0 ==> now < rcv[k].deadline && wakeup <= rcv[k].deadline)
    && (forall k :: k in snd && snd[k].deadline != 0.0 ==> wakeup <= snd[k].deadline)
  }

  class DataLink21 {
    const cfg: Config
    var rcv: map<int, RcvBuf>
    var snd: map<int, SndBuf>
    var que: seq<Queued>
    ghost var sent: seq<Frame>
    ghost var out: seq<Delivery>

    ghost predicate Valid()
      reads this
    {
      && cfg.Valid()
      && (forall k :: k in snd ==> SndWf(snd[k]))
      && Distinct(que)
    }

    constructor (cfg: Config)
      requires cfg.Valid()
      ensures Valid() && this.cfg == cfg && rcv == map[] && snd == map[] && que == [] && sent == [] && out == []
    {
      this.cfg := cfg;
      rcv, snd, que := map[], map[], [];
      sent, out := [], [];
    }

    /** Announces a message and opens its send buffer. */
    method PutMultiMsg(q: Queued, clock: real)
      requires Valid()
      modifies this
      ensures Valid() && rcv == old(rcv) && que == old(que) && out == old(out)
      ensures var (frame, buf) := StartQueued(cfg, q, clock);
              sent == old(sent) + [frame] && snd == old(snd)[q.hash := buf]
    {
      var size := |q.data|;
      var num := if size % 7 == 0 then size / 7 else size / 7 + 1;
      if q.dst == GLOBAL {
        sent := sent + [BamFrame(q.src, q.priority, q.pgn, size, num)];
        snd := snd[q.hash := SndBuf(q.pgn, q.priority, size, num, q.data, SendingBm,
                                    clock + cfg.bamInterval, q.src, GLOBAL, 0, 0)];
      } else {
        var pgn := q.pgn - q.pgn % 0x100;
        sent := sent + [RtsFrame(q.src, q.pduSpecific, q.priority, pgn, size, num, Min(cfg.maxCmdt, num))];
        snd := snd[q.hash := SndBuf(pgn, q.priority, size, num, q.data, WaitingCts,
                                    clock + T3, q.src, q.pduSpecific, 0, 0)];
      }
    }

    /**
     A live send buffer is never overwritten: the message is started only when
     its address pair is idle, otherwise it waits, replacing an older waiting one.
     */
    method SendPgn(dataPage: int, pduFormat: int, pduSpecific: int, priority: int, src: int, data: seq<int>,
        clock: real)
      requires Valid() && IsByte(pduFormat) && IsByte(pduSpecific)
      modifies this
      ensures Valid() && rcv == old(rcv) && out == old(out)
      ensures forall k :: k in old(snd) ==> k in snd && snd[k] == old(snd[k])
      ensures var pgn := PgnValue(dataPage, pduFormat, pduSpecific);
              var dst := if pduSpecific == GLOBAL || pduFormat >= 240 then GLOBAL else pduSpecific;
              var q := Queued(Hash(src, dst), pduSpecific, priority, src, pgn, data, dst);
              if |data| <= 8 then
                && snd == old(snd) && que == old(que)
                && sent == old(sent) + [Frame(true, MakeHeader(priority, dataPage, pduFormat, pduSpecific, src), data)]
              else if q.hash in old(snd) then
                snd == old(snd) && que == Enqueue(old(que), q) && sent == old(sent)
              else
                var (frame, buf) := StartQueued(cfg, q, clock);
                snd == old(snd)[q.hash := buf] && que == old(que) && sent == old(sent) + [frame]
    {
      var pgn := PgnValue(dataPage, pduFormat, pduSpecific);
      if |data| <= 8 {
        sent := sent + [Frame(true, MakeHeader(priority, dataPage, pduFormat, pduSpecific, src), data)];
      } else {
        var dst := pduSpecific;
        if pduSpecific == GLOBAL || 240 <= pduFormat <= 255 {
          dst := GLOBAL;
        }
        var q := Queued(Hash(src, dst), pduSpecific, priority, src, pgn, data, dst);
        if q.hash in snd {
          EnqueueDistinct(que, q);
          que := Enqueue(que, q);
        } else {
          PutMultiMsg(q, clock);
        }
      }
    }

    /** Takes the oldest waiting message once no send buffer is left. */
    method StartWaiting(clock: real)
      requires Valid()
      modifies this
      ensures Valid() && rcv == old(rcv) && out == old(out)
      ensures forall k :: k in old(snd) ==> k in snd && snd[k] == old(snd[k])
      ensures if old(snd) == map[] && old(que) != [] then
                var (frame, buf) := StartQueued(cfg, old(que)[0], clock);
                snd == map[old(que)[0].hash := buf] && que == old(que)[1..] && sent == old(sent) + [frame]
              else
                snd == old(snd) && que == old(que) && sent == old(sent)
    {
      if snd == map[] && que != [] {
        var q := que[0];
        que := que[1..];
        PutMultiMsg(q, clock);
      }
    }

    /** The bytes of one data packet, filled up with 0xFF. */
    method BuildPacket(data: seq<int>, package: nat) returns (packet: seq<int>)
      ensures packet == [package + 1] + Chunk(data, package)
    {
      var offset := package * 7;
      packet := if offset <= |data| then data[offset..] else [];
      if |packet| > 7 {
        packet := packet[..7];
      } else {
        while |packet| < 7
          invariant |packet| <= 7
          invariant forall i :: 0 <= i < |packet| ==> packet[i] == Chunk(data, package)[i]
          invariant offset + |packet| >= |data|
        {
          packet := packet + [255];
        }
      }
      assert packet == Chunk(data, package);
      packet := [package + 1] + packet;
    }

    /** Sends packets of one window until it is used up or the packet interval starts. */
    method SendWindow(k: int, clock: real)
      requires Valid() && k in snd
      modifies this`snd, this`sent
      ensures Valid()
      ensures var (buf, frames) := Burst(cfg, old(snd[k]), clock);
              snd == old(snd)[k := buf] && sent == old(sent) + frames
    {
      hide Distinct;
      var more := true;
      ghost var goal := Burst(cfg, snd[k], clock);
      ghost var emitted: seq<Frame> := [];
      while more && snd[k].next < snd[k].num
        invariant Valid() && k in snd && snd == old(snd)[k := snd[k]]
        invariant sent == old(sent) + emitted
        invariant more ==> goal.0 == Burst(cfg, snd[k], clock).0
                           && goal.1 == emitted + Burst(cfg, snd[k], clock).1
        invariant !more ==> goal == (snd[k], emitted)
        decreases more, snd[k].num - snd[k].next
      {
        var buf := snd[k];
        var packet := BuildPacket(buf.data, buf.next);
        snd := snd[k := buf.(next := buf.next + 1)];
        if buf.next == buf.waitOn {
          snd := snd[k := snd[k].(state := WaitingCts, deadline := clock + T3)];
          more := false;
        } else if cfg.rtsInterval.Some? {
          snd := snd[k := snd[k].(deadline := clock + cfg.rtsInterval.value)];
          more := false;
        }
        var frame := PduFrame(PF_TP_DT, 7, buf.src, buf.dst, packet);
        sent := sent + [frame];
        emitted := emitted + [frame];
      }
    }

    /** One pass over one send buffer. */
    method ServeSender(k: int, now: real, clock: real, wakeup: real) returns (next: real)
      requires Valid() && k in snd
      modifies this`snd, this`sent
      ensures Valid()
      ensures var (buf, frames) := SndJob(cfg, old(snd[k]), now, clock);
              snd == Put(old(snd), k, buf) && sent == old(sent) + frames
      ensures next <= wakeup && (k in snd && snd[k].deadline != 0.0 ==> next <= snd[k].deadline)
      ensures next == wakeup || (k in snd && next == snd[k].deadline)
    {
      next := wakeup;
      var buf := snd[k];
      if buf.deadline != 0.0 {
        if buf.deadline > now {
          if next > buf.deadline { next := buf.deadline; }
        } else {
          match buf.state {
            case WaitingCts =>
              sent := sent + [AbortFrame(buf.src, buf.dst, TIMEOUT, buf.pgn)];
              snd := snd - {k};
            case SendingInCts =>
              SendWindow(k, clock);
              if next > snd[k].deadline { next := snd[k].deadline; }
            case SendingBm =>
              var packet := BuildPacket(buf.data, buf.next);
              if buf.next + 1 < buf.num {
                snd := snd[k := buf.(next := buf.next + 1, deadline := clock + cfg.bamInterval)];
                if next > snd[k].deadline { next := snd[k].deadline; }
              } else {
                snd := snd - {k};
              }
              sent := sent + [PduFrame(PF_TP_DT, 7, buf.src, buf.dst, packet)];
            case TransmissionFinished =>
              snd := snd - {k};
          }
        }
      }
      assert sent == old(sent) + SndJob(cfg, buf, now, clock).1;
      assert snd == Put(old(snd), k, SndJob(cfg, buf, now, clock).0);
    }

    /** Drops one receive buffer if its deadline has passed. */
    method ServeReceiver(k: int, now: real, wakeup: real) returns (next: real)
      requires Valid() && k in rcv
      modifies this`rcv, this`sent
      ensures Valid()
      ensures var (buf, frames) := RcvJob(Some(old(rcv[k])), now);
              rcv == Put(old(rcv), k, buf) && sent == old(sent) + frames
      ensures next <= wakeup && (k in rcv && rcv[k].deadline != 0.0 ==> next <= rcv[k].deadline)
      ensures next == wakeup || (k in rcv && next == rcv[k].deadline)
    {
      next := wakeup;
      var buf := rcv[k];
      assert rcv == Put(rcv, k, Some(buf));
      if buf.deadline != 0.0 {
        if buf.deadline > now {
          if next > buf.deadline { next := buf.deadline; }
        } else {
          if buf.dst != GLOBAL {
            sent := sent + [AbortFrame(buf.dst, buf.src, TIMEOUT, buf.pgn)];
          }
          rcv := rcv - {k};
        }
      }
    }

    /** Drops the receive buffers whose deadline has passed. */
    method ServeReceivers(now: real, wakeup: real) returns (next: real, ghost keys: seq<int>)
      requires Valid()
      modifies this`rcv, this`sent
      ensures Valid()
      ensures Enumerates(keys, old(rcv).Keys)
      ensures rcv == Surviving(old(rcv), now)
      ensures sent == old(sent) + TimeoutLog(old(rcv), keys, now)
      ensures next <= wakeup
      ensures forall k :: k in rcv && rcv[k].deadline != 0.0 ==> next <= rcv[k].deadline
      ensures next == wakeup || exists k :: k in rcv && next == rcv[k].deadline
    {
      hide RcvJob, Passed, Enumerates, SndWf, Distinct;
      var todo := ListKeys(rcv.Keys);
      keys := todo;
      next := wakeup;
      ghost var plan := RcvPlan(rcv, now);
      PassStart(plan, todo, wakeup);
      for i := 0 to |todo|
        invariant Valid()
        invariant sent == old(sent) + TimeoutLog(old(rcv), todo[..i], now)
        invariant Passed(plan, rcv, todo, i, wakeup, next)
      {
        ghost var before, earlier := rcv, next;
        PassAt(plan, rcv, todo, i, wakeup, next);
        TimeoutLogNext(old(rcv), todo, i, now);
        Associate(old(sent), TimeoutLog(old(rcv), todo[..i], now), RcvJob(Some(old(rcv)[todo[i]]), now).1);
        next := ServeReceiver(todo[i], now, next);
        PassNext(plan, before, rcv, todo, i, wakeup, earlier, next);
      }
      assert todo[..|todo|] == todo;
      PassDone(plan, rcv, todo, wakeup, next);
      RcvPlanDone(old(rcv), rcv, now);
    }

    /** Serves every send buffer once. */
    method ServeSenders(now: real, clock: real, wakeup: real) returns (next: real, ghost keys: seq<int>)
      requires Valid()
      modifies this`snd, this`sent
      ensures Valid()
      ensures Enumerates(keys, old(snd).Keys)
      ensures forall k :: if k in old(snd) then Served(cfg, k, now, clock, old(snd), snd) else k !in snd
      ensures sent == old(sent) + SendLog(cfg, old(snd), keys, now, clock)
      ensures next <= wakeup
      ensures forall k :: k in snd && snd[k].deadline != 0.0 ==> next <= snd[k].deadline
      ensures next == wakeup || exists k :: k in snd && next == snd[k].deadline
    {
      hide SndJob, Passed, Enumerates, Served, Distinct;
      var todo := ListKeys(snd.Keys);
      keys := todo;
      next := wakeup;
      ghost var plan := SndPlan(cfg, snd, now, clock);
      PassStart(plan, todo, wakeup);
      for i := 0 to |todo|
        invariant Valid()
        invariant sent == old(sent) + SendLog(cfg, old(snd), todo[..i], now, clock)
        invariant Passed(plan, snd, todo, i, wakeup, next)
      {
        var k := todo[i];
        ghost var before, earlier := snd, next;
        PassAt(plan, snd, todo, i, wakeup, next);
        SendLogNext(cfg, old(snd), todo, i, now, clock);
        Associate(old(sent), SendLog(cfg, old(snd), todo[..i], now, clock), SndJob(cfg, old(snd)[k], now, clock).1);
        next := ServeSender(k, now, clock, next);
        PassNext(plan, before, snd, todo, i, wakeup, earlier, next);
      }
      assert todo[..|todo|] == todo;
      PassDone(plan, snd, todo, wakeup, next);
      SndPlanDone(cfg, old(snd), snd, now, clock);
    }

    /**
     One pass of the job thread: every buffer is served as if it were alone, no
     receive session whose deadline has passed survives, and the layer asks to be
     woken no later than the next deadline.
     */
    method AsyncJobThread(now: real, clock: real)
      returns (wakeup: real, ghost first: SndBuffers, ghost rcvKeys: seq<int>, ghost sndKeys: seq<int>)
      requires Valid()
      modifies this
      ensures Valid() && out == old(out)
      ensures if old(snd) == map[] && old(que) != [] then
                first == map[old(que)[0].hash := StartQueued(cfg, old(que)[0], clock).1] && que == old(que)[1..]
              else first == old(snd) && que == old(que)
      ensures forall k :: k in first ==> SndWf(first[k])
      ensures Enumerates(rcvKeys, old(rcv).Keys) && Enumerates(sndKeys, first.Keys)
      ensures rcv == Surviving(old(rcv), now)
      ensures forall k :: if k in first then Served(cfg, k, now, clock, first, snd) else k !in snd
      ensures sent == old(sent)
                      + (if old(snd) == map[] && old(que) != [] then [StartQueued(cfg, old(que)[0], clock).0] else [])
                      + TimeoutLog(old(rcv), rcvKeys, now) + SendLog(cfg, first, sndKeys, now, clock)
      ensures WakesInTime(wakeup, now, rcv, snd)
      ensures wakeup == now + 5.0 || (exists k :: k in rcv && wakeup == rcv[k].deadline)
              || (exists k :: k in snd && wakeup == snd[k].deadline)
    {
      wakeup := now + 5.0;
      StartWaiting(clock);
      first := snd;
      wakeup, rcvKeys := ServeReceivers(now, wakeup);
      wakeup, sndKeys := ServeSenders(now, clock, wakeup);
    }

    /** TP.CM: `src`, `dst` and the priority come from the identifier. */
    method ProcessTpCm(priority: int, src: int, dst: int, data: seq<int>, clock: real) returns (error: Option<Error>)
      requires Valid()
      modifies this
      ensures Valid() && que == old(que)
      ensures |data| < 8 <==> error == Some(IndexError)
      ensures error.Some? ==> error.value == IndexError || error.value == RuntimeError
      ensures |data| >= 8 ==>
                (error == Some(RuntimeError)
                 <==> data[0] !in {CM_RTS, CM_CTS, CM_EOM_ACK, CM_BAM, CM_ABORT})
      ensures error.Some? ==> rcv == old(rcv) && snd == old(snd) && sent == old(sent) && out == old(out)
      ensures error.None? && (data[0] == CM_RTS || data[0] == CM_BAM) ==>
                var r := if data[0] == CM_RTS then OnRts(cfg, Get(old(rcv), Hash(src, dst)), src, dst, data, clock)
                         else OnBam(src, dst, data, clock);
                && rcv == Put(old(rcv), Hash(src, dst), r.buf) && snd == old(snd)
                && sent == old(sent) + r.sent && out == old(out) + r.out
      ensures error.None? && data[0] != CM_RTS && data[0] != CM_BAM ==>
                var buf := Get(old(snd), Hash(dst, src));
                var r := if data[0] == CM_CTS then OnCts(buf, src, dst, data, clock)
                         else if data[0] == CM_EOM_ACK then OnEomAck(buf, priority, src, dst, data, clock)
                         else OnAbort(buf, clock);
                && snd == Put(old(snd), Hash(dst, src), r.buf) && rcv == old(rcv)
                && sent == old(sent) + r.sent && out == old(out) + r.out
    {
      if |data| < 8 { return Some(IndexError); }
      error := None;
      var pgn := PgnOf(data);
      if data[0] == CM_RTS {
        var size, num, maxNum := SizeOf(data), data[3], data[4];
        var k := Hash(src, dst);
        if k in rcv {
          sent := sent + [AbortFrame(dst, src, BUSY, pgn)];
          assert rcv == Put(rcv, k, Some(rcv[k]));
          return;
        }
        maxNum := Min(maxNum, num);
        rcv := rcv[k := RcvBuf(pgn, size, num, 1, Min(cfg.maxCmdt, maxNum), Some(Min(cfg.maxCmdt, maxNum)), [],
                               clock + T2, src, dst)];
        sent := sent + [CtsFrame(dst, src, Min(cfg.maxCmdt, maxNum), 1, pgn)];
      } else if data[0] == CM_CTS {
        var num, nextPackage := data[1], data[2] - 1;
        var k := Hash(dst, src);
        if k !in snd {
          sent := sent + [AbortFrame(dst, src, RESOURCES, pgn)];
          assert snd == Put(snd, k, None);
          return;
        }
        if num == 0 {
          snd := snd[k := snd[k].(deadline := clock + TH)];
          return;
        }
        if num > snd[k].num { num := snd[k].num; }
        if nextPackage + num > snd[k].num { num := snd[k].num - nextPackage; }
        snd := snd[k := snd[k].(waitOn := snd[k].next + num - 1, state := SendingInCts, deadline := clock)];
      } else if data[0] == CM_EOM_ACK {
        var k := Hash(dst, src);
        if k !in snd {
          sent := sent + [AbortFrame(dst, src, RESOURCES, pgn)];
          assert snd == Put(snd, k, None);
          return;
        }
        out := out + [ToSubscribers(priority, pgn, src, dst, data)];
        snd := snd[k := snd[k].(state := TransmissionFinished, deadline := clock)];
      } else if data[0] == CM_BAM {
        var k := Hash(src, dst);
        if k in rcv { rcv := rcv - {k}; }
        rcv := rcv[k := RcvBuf(pgn, SizeOf(data), data[3], 1, 1, None, [], clock + T1, src, dst)];
      } else if data[0] == CM_ABORT {
        var k := Hash(dst, src);
        if k in snd && snd[k].state.WaitingCts? {
          snd := snd[k := snd[k].(state := TransmissionFinished, deadline := clock)];
        }
        assert snd == Put(old(snd), k, OnAbort(Get(old(snd), k), clock).buf);
      } else {
        error := Some(RuntimeError);
      }
    }

    method ProcessTpDt(priority: int, src: int, dst: int, data: seq<int>, clock: real) returns (error: Option<Error>)
      requires Valid()
      modifies this
      ensures Valid() && que == old(que) && snd == old(snd)
      ensures |data| < 1 ==> error == Some(IndexError) && rcv == old(rcv) && sent == old(sent) && out == old(out)
      ensures |data| >= 1 ==>
                var r := OnDt(Get(old(rcv), Hash(src, dst)), priority, src, dst, data, clock);
                && rcv == Put(old(rcv), Hash(src, dst), r.buf) && error == r.error
                && sent == old(sent) + r.sent && out == old(out) + r.out
    {
      if |data| < 1 { return Some(IndexError); }
      error := None;
      var k := Hash(src, dst);
      if k !in rcv {
        assert rcv == Put(rcv, k, None);
        return;
      }
      var expected := rcv[k].expected;
      if data[0] != expected {
        if dst != GLOBAL {
          sent := sent + [AbortFrame(dst, src, RESOURCES, rcv[k].pgn)];
        }
        rcv := rcv - {k};
        return Some(ValueError);
      }
      rcv := rcv[k := rcv[k].(data := rcv[k].data + data[1..], expected := expected + 1)];
      if |rcv[k].data| >= rcv[k].size {
        var message := Take(rcv[k].data, rcv[k].size);
        if dst != GLOBAL {
          sent := sent + [EomAckFrame(dst, src, rcv[k].size, rcv[k].num, rcv[k].pgn)];
        }
        if rcv[k].pgn == PGN_COMMANDED_ADDRESS {
          out := out + [CommandedAddress(src, dst, message)];
        } else {
          out := out + [ToSubscribers(priority, rcv[k].pgn, src, dst, message)];
        }
        rcv := rcv - {k};
        assert rcv == Put(old(rcv), k, None);
        return;
      }
      if dst != GLOBAL && data[0] >= rcv[k].border {
        if rcv[k].maxRec.None? { return Some(KeyError); }
        var window := rcv[k].maxRec.value;
        sent := sent + [CtsFrame(dst, src, Min(window, rcv[k].num - rcv[k].border), rcv[k].border + 1, rcv[k].pgn)];
        rcv := rcv[k := rcv[k].(border := Min(rcv[k].border + window, rcv[k].num))];
        rcv := rcv[k := rcv[k].(deadline := clock + T2)];
        return;
      }
      rcv := rcv[k := rcv[k].(deadline := clock + T1)];
    }

    /**
     A frame from the bus, for the transport identifiers: nodes take part only for
     destinations they own, and then exactly one buffer is touched, as `Receive`
     and `Answer` say.
     */
    method NotifyTransport(f: Frame, clock: real, owned: bool) returns (error: Option<Error>)
      requires Valid() && IsTransport(f.header)
      modifies this
      ensures Valid() && que == old(que)
      ensures var same := rcv == old(rcv) && snd == old(snd) && sent == old(sent) && out == old(out);
              if !owned && f.header.specific != GLOBAL then
                error.None? && same
              else if ForReceiver(f) then
                var r := Receive(cfg, Get(old(rcv), RcvKey(f.header)), f, clock);
                && rcv == Put(old(rcv), RcvKey(f.header), r.buf) && snd == old(snd)
                && sent == old(sent) + r.sent && out == old(out) + r.out && error == r.error
              else if ForSender(f) then
                var r := Answer(Get(old(snd), SndKey(f.header)), f, clock);
                && snd == Put(old(snd), SndKey(f.header), r.buf) && rcv == old(rcv)
                && sent == old(sent) + r.sent && out == old(out) + r.out && error.None?
              else
                && same
                && error == Some(if |f.data| < 8 then IndexError else RuntimeError)
    {
      error := None;
      var mid := f.header;
      var dst := f.header.specific;
      var owns := dst == GLOBAL;
      if !owns && owned { owns := true; }
      if owns {
        if f.header.format == PF_TP_CM {
          assert ForReceiver(f) || ForSender(f) ==> f.data[0] in {CM_RTS, CM_CTS, CM_EOM_ACK, CM_BAM, CM_ABORT};
          error := ProcessTpCm(mid.priority, mid.source, dst, f.data, clock);
        } else {
          error := ProcessTpDt(mid.priority, mid.source, dst, f.data, clock);
        }
      }
    }
  }
}
