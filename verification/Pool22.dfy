/**
 The pools of J1939-22 session numbers: four for broadcasts, eight for directed
 transfers. `true` marks a free number.
 */
module Pool22 {
  import opened Common
  import opened Wire
  import opened Transport22

  datatype Flags = Flags(bam: seq<bool>, rts: seq<bool>)

  type SndBuffers = map<int, SndBuf>

  predicate Sized(flags: Flags) {
    |flags.bam| == 4 && |flags.rts| == 8
  }

  /** Giving a number back; a number outside the pool is Python's IndexError. */
  function Give(flags: Flags, r: Release): (out: (Flags, Option<Error>))
    ensures |out.0.bam| == |flags.bam| && |out.0.rts| == |flags.rts|
  {
    match r
    case Keep => (flags, None)
    case FreeRts(s) =>
      if 0 <= s < |flags.rts| then (flags.(rts := flags.rts[s := true]), None) else (flags, Some(IndexError))
    case FreeBam(s) =>
      if 0 <= s < |flags.bam| then (flags.(bam := flags.bam[s := true]), None) else (flags, Some(IndexError))
  }

  /** The flags after several returns, in order. */
  function GiveAll(flags: Flags, rs: seq<Release>): (out: Flags)
    ensures |out.bam| == |flags.bam| && |out.rts| == |flags.rts|
    decreases |rs|
  {
    if rs == [] then flags else Give(GiveAll(flags, rs[..|rs| - 1]), rs[|rs| - 1]).0
  }

  /** Takes the lowest free number. */
  method Acquire(free: seq<bool>) returns (session: Option<nat>, left: seq<bool>)
    ensures session.None? ==> left == free && forall i :: 0 <= i < |free| ==> !free[i]
    ensures session.Some? ==>
              && session.value < |free| && free[session.value] && left == free[session.value := false]
              && forall i :: 0 <= i < session.value ==> !free[i]
  {
    left := free;
    for i := 0 to |free|
      invariant left == free
      invariant forall j :: 0 <= j < i ==> !free[j]
    {
      if left[i] {
        left := left[i := false];
        return Some(i), left;
      }
    }
    return None, left;
  }

  // ---- which buffer holds which number ----

  /** A buffer of a node that only originates: its number is taken, its state fits its kind. */
  ghost predicate Owns(k: int, b: SndBuf, flags: Flags)
    requires Sized(flags)
  {
    && IsByte(b.src) && IsByte(b.dst) && k == Hash(b.session, b.src, b.dst)
    && (if b.dst == GLOBAL then
          0 <= b.session < 4 && !flags.bam[b.session] && (b.state.SendingBam? || b.state.SendingEomStatus?)
        else
          0 <= b.session < 8 && !flags.rts[b.session]
          && (b.state.WaitingCts? || b.state.SendingRtsCts? || b.state.WaitingEomAck? || b.state.EomAckReceived?))
  }

  /** Buffer `k` is a live one of the given kind and number. */
  ghost predicate Holds(snd: SndBuffers, k: int, broadcast: bool, session: int) {
    k in snd && (snd[k].dst == GLOBAL) == broadcast && snd[k].session == session
  }

  ghost predicate SameNumber(a: SndBuf, b: SndBuf) {
    (a.dst == GLOBAL) == (b.dst == GLOBAL) && a.session == b.session
  }

  ghost predicate Unique(snd: SndBuffers) {
    forall j, k :: j in snd && k in snd && SameNumber(snd[j], snd[k]) ==> j == k
  }

  /** Every number taken belongs to exactly one live buffer and the other way round. */
  ghost predicate Pool(snd: SndBuffers, flags: Flags) {
    && Sized(flags)
    && (forall k :: k in snd ==> Owns(k, snd[k], flags))
    && Unique(snd)
    && (forall n :: 0 <= n < 4 && !flags.bam[n] ==> exists k :: Holds(snd, k, true, n))
    && (forall n :: 0 <= n < 8 && !flags.rts[n] ==> exists k :: Holds(snd, k, false, n))
  }

  /** A number just acquired is on no live buffer, so the new buffer overwrites none. */
  lemma NeverOverwrites(snd: SndBuffers, flags: Flags, session: nat, src: int, dst: int)
    requires Pool(snd, flags) && IsByte(src) && IsByte(dst)
    requires if dst == GLOBAL then session < 4 && flags.bam[session] else session < 8 && flags.rts[session]
    ensures Hash(session, src, dst) !in snd
  {
    var k := Hash(session, src, dst);
    if k in snd {
      var b := snd[k];
      assert Owns(k, b, flags);
      HashInjective(b.session, b.src, b.dst, session, src, dst);
      assert false;
    }
  }

  /** Buffer `b` starts with a number that was free and now is taken. */
  ghost predicate Opens(flags: Flags, b: SndBuf, after: Flags)
    requires Sized(flags)
  {
    && IsByte(b.src) && IsByte(b.dst)
    && (if b.dst == GLOBAL then
          0 <= b.session < 4 && flags.bam[b.session] && after == flags.(bam := flags.bam[b.session := false])
          && b.state.SendingBam?
        else
          0 <= b.session < 8 && flags.rts[b.session] && after == flags.(rts := flags.rts[b.session := false])
          && b.state.WaitingCts?)
  }

  lemma PoolStart(snd: SndBuffers, flags: Flags, b: SndBuf, after: Flags)
    requires Pool(snd, flags) && Opens(flags, b, after)
    ensures Hash(b.session, b.src, b.dst) !in snd
    ensures Pool(snd[Hash(b.session, b.src, b.dst) := b], after)
  {
    hide Hash;
    NeverOverwrites(snd, flags, b.session, b.src, b.dst);
    var k := Hash(b.session, b.src, b.dst);
    var more := snd[k := b];
    StartKeepsOwners(snd, flags, b, after);
    HoldersGrow(snd, k, b);
    assert Holds(more, k, b.dst == GLOBAL, b.session);
    forall n | 0 <= n < 4 && !after.bam[n] ensures exists j :: Holds(more, j, true, n) {
      if !flags.bam[n] {
        var j :| Holds(snd, j, true, n);
        assert Holds(more, j, true, n);
      }
    }
    forall n | 0 <= n < 8 && !after.rts[n] ensures exists j :: Holds(more, j, false, n) {
      if !flags.rts[n] {
        var j :| Holds(snd, j, false, n);
        assert Holds(more, j, false, n);
      }
    }
  }

  lemma StartKeepsOwners(snd: SndBuffers, flags: Flags, b: SndBuf, after: Flags)
    requires Pool(snd, flags) && Opens(flags, b, after)
    ensures Owns(Hash(b.session, b.src, b.dst), b, after)
    ensures forall j :: j in snd ==> Owns(j, snd[j], after) && !SameNumber(snd[j], b)
  {
    forall j | j in snd ensures Owns(j, snd[j], after) && !SameNumber(snd[j], b) {
      assert Owns(j, snd[j], flags);
    }
  }

  lemma HoldersGrow(snd: SndBuffers, k: int, b: SndBuf)
    requires k !in snd
    ensures forall j, broadcast, n :: Holds(snd, j, broadcast, n) ==> Holds(snd[k := b], j, broadcast, n)
  {
  }

  /** A live buffer keeps its number while its addresses stay and its state fits. */
  lemma PoolUpdate(snd: SndBuffers, flags: Flags, k: int, b: SndBuf)
    requires Pool(snd, flags) && k in snd && Owns(k, b, flags)
    requires b.src == snd[k].src && b.dst == snd[k].dst && b.session == snd[k].session
    ensures Pool(snd[k := b], flags)
  {
    hide Hash, Owns;
    var after := snd[k := b];
    assert forall j, broadcast, n :: Holds(snd, j, broadcast, n) ==> Holds(after, j, broadcast, n);
  }

  /** A buffer that goes gives its number back. */
  function Own(b: SndBuf): Release {
    if b.dst == GLOBAL then FreeBam(b.session) else FreeRts(b.session)
  }

  lemma PoolRemove(snd: SndBuffers, flags: Flags, k: int)
    requires Pool(snd, flags) && k in snd
    ensures Pool(snd - {k}, Give(flags, Own(snd[k])).0) && Give(flags, Own(snd[k])).1.None?
  {
    hide Hash;
    var b, less := snd[k], snd - {k};
    var after := Give(flags, Own(b)).0;
    assert Owns(k, b, flags);
    forall j | j in less ensures Owns(j, less[j], after) {
      assert Owns(j, snd[j], flags);
    }
    forall n | 0 <= n < 4 && !after.bam[n] ensures exists j :: Holds(less, j, true, n) {
      var j :| Holds(snd, j, true, n);
      assert Holds(less, j, true, n);
    }
    forall n | 0 <= n < 8 && !after.rts[n] ensures exists j :: Holds(less, j, false, n) {
      var j :| Holds(snd, j, false, n);
      assert Holds(less, j, false, n);
    }
  }

  /** One pass over a live buffer either keeps it live or frees exactly its number. */
  lemma JobOwnership(cfg: Config, b: SndBuf, k: int, flags: Flags, now: real, clock: real)
    requires SndWf(b) && Sized(flags) && Owns(k, b, flags)
    ensures var r := SndJob(cfg, b, now, clock);
            if r.buf.Some? then
              && r.release == Keep && Owns(k, r.buf.value, flags)
              && r.buf.value.src == b.src && r.buf.value.dst == b.dst && r.buf.value.session == b.session
            else r.release == Own(b)
  {
    hide Hash, SendSegment;
    if b.state.SendingRtsCts? { BurstOwnership(cfg, b, clock); }
    if b.state.SendingBam? { SegmentOwnership(b); }
  }

  lemma SegmentOwnership(b: SndBuf)
    requires SndWf(b) && b.next < b.num
    ensures var b1 := SendSegment(b).1; b1 == b.(data := b1.data, next := b.next + 1)
  {
  }

  lemma {:induction false} BurstOwnership(cfg: Config, b: SndBuf, clock: real)
    requires SndWf(b) && b.state.SendingRtsCts?
    ensures var b1 := Burst(cfg, b, clock).0;
            && b1.src == b.src && b1.dst == b.dst && b1.session == b.session
            && (b1.state.WaitingCts? || b1.state.SendingRtsCts? || b1.state.WaitingEomAck?)
    decreases b.num - b.next
  {
    hide DtFrame, DtData;
    if b.next < b.num {
      var b1 := SendSegment(b).1;
      if b1.next != b.num && b.next != b.waitOn && cfg.rtsInterval.None? { BurstOwnership(cfg, b1, clock); }
    }
  }

  lemma PoolServed(cfg: Config, snd: SndBuffers, flags: Flags, k: int, now: real, clock: real)
    requires Pool(snd, flags) && k in snd && SndWf(snd[k])
    ensures var r := SndJob(cfg, snd[k], now, clock);
            Pool(Put(snd, k, r.buf), Give(flags, r.release).0) && Give(flags, r.release).1.None?
  {
    hide SndJob, Hash, Owns;
    assert Owns(k, snd[k], flags);
    JobOwnership(cfg, snd[k], k, flags, now, clock);
    var r := SndJob(cfg, snd[k], now, clock);
    if r.buf.Some? { PoolUpdate(snd, flags, k, r.buf.value); } else { PoolRemove(snd, flags, k); }
  }

  /** A clear to send or an acknowledgement for a live directed transfer. */
  lemma PoolAnswered(cfg: Config, snd: SndBuffers, flags: Flags, k: int, priority: int, src: int, dst: int, m: Cm,
                     data: seq<int>, clock: real)
    requires Pool(snd, flags) && k in snd && snd[k].dst != GLOBAL && (m.kind == CTS || m.kind == EOM_ACK)
    ensures var r := if m.kind == CTS then OnCts(cfg, Some(snd[k]), src, dst, m, clock)
                     else OnEomAck(Some(snd[k]), priority, src, dst, m, data, clock);
            r.release == Keep && Pool(Put(snd, k, r.buf), flags)
  {
    hide Hash;
    assert Owns(k, snd[k], flags);
    var r := if m.kind == CTS then OnCts(cfg, Some(snd[k]), src, dst, m, clock)
             else OnEomAck(Some(snd[k]), priority, src, dst, m, data, clock);
    PoolUpdate(snd, flags, k, r.buf.value);
  }

  // ---- what the restriction to originating nodes is for ----

  /** The number returned is none, outside the pool, or already free. */
  predicate Harmless(flags: Flags, r: Release) {
    match r
    case Keep => true
    case FreeRts(n) => !(0 <= n < |flags.rts|) || flags.rts[n]
    case FreeBam(n) => !(0 <= n < |flags.bam|) || flags.bam[n]
  }

  /**
   Receiving handlers return numbers too, without looking whether they are in use
   here: the pool survives exactly when the number returned was not taken.
   */
  lemma ReturnKeepsPoolIff(snd: SndBuffers, flags: Flags, r: Release)
    requires Pool(snd, flags)
    ensures Pool(snd, Give(flags, r).0) <==> Harmless(flags, r)
  {
    hide Hash;
    var after := Give(flags, r).0;
    if Harmless(flags, r) {
      assert r.FreeRts? && 0 <= r.session < 8 ==> after.rts == flags.rts;
      assert r.FreeBam? && 0 <= r.session < 4 ==> after.bam == flags.bam;
      assert after == flags;
    } else {
      var k :| Holds(snd, k, r.FreeBam?, r.session);
      assert !Owns(k, snd[k], after);
    }
  }

  /** An abort removes the buffer without returning its number. */
  lemma AbortLosesNumber(cfg: Config, snd: SndBuffers, flags: Flags, k: int, clock: real, now: real)
    requires Pool(snd, flags) && k in snd && snd[k].state.WaitingCts? && 0.0 < clock <= now
    requires SndWf(snd[k])
    ensures var aborted := OnAbort(Some(snd[k]), clock).buf.value;
            && SndWf(aborted)
            && SndJob(cfg, aborted, now, now) == SndResult(None, [], [], Keep)
            && !Pool(snd - {k}, flags)
  {
    var b := snd[k];
    assert Owns(k, b, flags);
    if Pool(snd - {k}, flags) {
      var j :| Holds(snd - {k}, j, false, b.session);
      assert SameNumber(snd[j], b) && j in snd;
      assert false;
    }
  }

  // ---- at most 4 and 8 at once ----

  /** The live buffers of one kind with a number below `n`. */
  ghost function Below(snd: SndBuffers, broadcast: bool, n: int): set<int> {
    set k | k in snd && (snd[k].dst == GLOBAL) == broadcast && snd[k].session < n
  }

  lemma {:induction false} AtMostOnePerNumber(snd: SndBuffers, flags: Flags, broadcast: bool, n: nat)
    requires Pool(snd, flags)
    ensures |Below(snd, broadcast, n)| <= n
  {
    hide Owns;
    if n == 0 {
      forall k ensures k !in Below(snd, broadcast, 0) {
        if k in snd { NumberOf(snd, flags, k); }
      }
      assert Below(snd, broadcast, 0) == {};
    } else {
      hide Pool;
      var last := n - 1;
      AtMostOnePerNumber(snd, flags, broadcast, last);
      var less, all := Below(snd, broadcast, last), Below(snd, broadcast, n);
      if k :| Holds(snd, k, broadcast, last) {
        forall j | j in all ensures j in less + {k} {
          if snd[j].session == last { OneHolder(snd, flags, j, k); }
        }
        assert all == less + {k};
      } else {
        forall j | j in all ensures j in less {
          assert !Holds(snd, j, broadcast, last);
        }
        assert all == less;
      }
    }
  }

  lemma NumberOf(snd: SndBuffers, flags: Flags, k: int)
    requires Pool(snd, flags) && k in snd
    ensures 0 <= snd[k].session < 8 && (snd[k].dst == GLOBAL ==> snd[k].session < 4)
  {
    assert Owns(k, snd[k], flags);
  }

  lemma OneHolder(snd: SndBuffers, flags: Flags, j: int, k: int)
    requires Pool(snd, flags) && j in snd && k in snd && SameNumber(snd[j], snd[k])
    ensures j == k
  {
  }

  /** Never more than four broadcasts and eight directed transfers at once. */
  lemma PoolBounds(snd: SndBuffers, flags: Flags)
    requires Pool(snd, flags)
    ensures |set k | k in snd && snd[k].dst == GLOBAL| <= 4
    ensures |set k | k in snd && snd[k].dst != GLOBAL| <= 8
  {
    AtMostOnePerNumber(snd, flags, true, 4);
    AtMostOnePerNumber(snd, flags, false, 8);
    forall k | k in snd ensures snd[k].session < 8 && (snd[k].dst == GLOBAL ==> snd[k].session < 4) {
      NumberOf(snd, flags, k);
    }
    assert (set k | k in snd && snd[k].dst == GLOBAL) == Below(snd, true, 4);
    assert (set k | k in snd && snd[k].dst != GLOBAL) == Below(snd, false, 8);
  }

  /** A flag is taken exactly when one live buffer carries its number. */
  lemma TakenIffOneHolder(snd: SndBuffers, flags: Flags, broadcast: bool, n: nat)
    requires Pool(snd, flags) && n < (if broadcast then 4 else 8)
    ensures var free := if broadcast then flags.bam[n] else flags.rts[n];
            |set k | k in snd && (snd[k].dst == GLOBAL) == broadcast && snd[k].session == n| == if free then 0 else 1
  {
    var holders := set k | k in snd && (snd[k].dst == GLOBAL) == broadcast && snd[k].session == n;
    var free := if broadcast then flags.bam[n] else flags.rts[n];
    if free {
      forall k ensures k !in holders {
        assert k in snd ==> Owns(k, snd[k], flags);
      }
      assert holders == {};
    } else {
      var k :| Holds(snd, k, broadcast, n);
      forall j | j in holders ensures j == k {
        assert SameNumber(snd[j], snd[k]);
      }
      assert holders == {k};
    }
  }
}
