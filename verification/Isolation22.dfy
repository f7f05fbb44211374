/**
 J1939-22 sessions do not disturb each other: what one source, destination and
 session number receives is what it would have received alone on the bus.
 */
module Isolation22 {
  import opened Common
  import opened Wire
  import opened Transport22
  import opened DataLink22
  import opened Frames22

  datatype Event =
    | Arrive(frame: Frame, clock: real)
    | Pass(now: real)

  /** A session number of the pool its destination draws from. */
  predicate NumberInPool(session: int, dst: int) {
    0 <= session < (if dst == GLOBAL then 4 else 8)
  }

  /** The frames that open a receive buffer. */
  predicate Announces(f: Frame) {
    && f.header.format == PF_FD_TP_CM && |f.data| >= 12
    && (Decode(f.data).kind == RTS || Decode(f.data).kind == BAM)
  }

  /** Any transport frame, short ones included. */
  predicate Valid(e: Event) {
    e.Arrive? ==> InRange(e.frame.header) && IsTransport(e.frame.header)
  }

  /** An announcement carries a number of its pool. */
  predicate InPools(e: Event) {
    e.Arrive? && Announces(e.frame) ==> NumberInPool(SessionOf(e.frame.data), e.frame.header.specific)
  }

  /** A delivery and the buffer it came from. */
  datatype From = From(key: int, delivery: Delivery)

  function Tag(key: int, ds: seq<Delivery>): (r: seq<From>)
    ensures |r| == |ds| && forall i :: 0 <= i < |r| ==> r[i].key == key
  {
    seq(|ds|, i requires 0 <= i < |ds| => From(key, ds[i]))
  }

  /** The receive side of the layer, all buffers at once. */
  function React(cfg: Config, rcv: RcvBuffers, e: Event): (r: (RcvBuffers, seq<From>))
    requires Valid(e)
  {
    match e
    case Arrive(f, clock) =>
      if |f.data| <= 4 then (rcv, []) else
      var k := RcvKey(f);
      var r := Receive(cfg, Get(rcv, k), f, clock);
      (Put(rcv, k, r.buf), Tag(k, r.out))
    case Pass(now) => (Surviving(rcv, now), [])
  }

  function Run(cfg: Config, rcv: RcvBuffers, es: seq<Event>): (r: (RcvBuffers, seq<From>))
    requires forall e :: e in es ==> Valid(e)
    decreases |es|
  {
    if es == [] then (rcv, [])
    else
      var (r1, out1) := React(cfg, rcv, es[0]);
      var (r2, out2) := Run(cfg, r1, es[1..]);
      (r2, out1 + out2)
  }

  /** No pass of the run meets an expired buffer with a number outside its pool, so none raises. */
  ghost predicate Calm(cfg: Config, rcv: RcvBuffers, es: seq<Event>)
    requires forall e :: e in es ==> Valid(e)
    decreases |es|
  {
    es != [] ==>
      && (es[0].Pass? ==> TimeoutsInPool(rcv, es[0].now))
      && Calm(cfg, React(cfg, rcv, es[0]).0, es[1..])
  }

  /** One session: its number, source and destination. */
  datatype Id = Id(session: int, src: int, dst: int) {
    predicate Valid() { 0 <= session < 16 && IsByte(src) && IsByte(dst) }

    function Key(): int { Hash(session, src, dst) }
  }

  predicate Concerns(e: Event, id: Id)
    requires Valid(e)
  {
    e.Arrive? ==>
      && |e.frame.data| > 4
      && Id(SessionOf(e.frame.data), e.frame.header.source, e.frame.header.specific) == id
  }

  /** The events one session would see on its own. */
  function Alone(es: seq<Event>, id: Id): (r: seq<Event>)
    requires forall e :: e in es ==> Valid(e)
    ensures forall e :: e in r ==> e in es && Valid(e) && Concerns(e, id)
  {
    if es == [] then [] else (if Concerns(es[0], id) then [es[0]] else []) + Alone(es[1..], id)
  }

  /** The deliveries of one session. */
  function Of(ds: seq<From>, key: int): seq<Delivery> {
    if ds == [] then [] else (if ds[0].key == key then [ds[0].delivery] else []) + Of(ds[1..], key)
  }

  lemma {:induction false} OfConcat(a: seq<From>, b: seq<From>, key: int)
    ensures Of(a + b, key) == Of(a, key) + Of(b, key)
  {
    if a == [] { assert a + b == b; }
    else {
      assert (a + b)[1..] == a[1..] + b;
      OfConcat(a[1..], b, key);
      Associate(if a[0].key == key then [a[0].delivery] else [], Of(a[1..], key), Of(b, key));
    }
  }

  lemma {:induction false} OfOthers(ds: seq<From>, key: int)
    requires forall i :: 0 <= i < |ds| ==> ds[i].key != key
    ensures Of(ds, key) == []
  {
    if ds != [] { OfOthers(ds[1..], key); }
  }

  lemma OwnStep(cfg: Config, rcv: RcvBuffers, own: RcvBuffers, e: Event, id: Id)
    requires Valid(e) && Concerns(e, id) && Get(rcv, id.Key()) == Get(own, id.Key())
    ensures Get(React(cfg, rcv, e).0, id.Key()) == Get(React(cfg, own, e).0, id.Key())
    ensures React(cfg, rcv, e).1 == React(cfg, own, e).1
  {
    hide Receive, Hash, SessionOf;
  }

  lemma SessionFits(data: seq<int>)
    requires |data| > 4
    ensures 0 <= SessionOf(data) < 16
  {
  }

  lemma OtherStep(cfg: Config, rcv: RcvBuffers, e: Event, id: Id)
    requires Valid(e) && !Concerns(e, id) && id.Valid()
    ensures Get(React(cfg, rcv, e).0, id.Key()) == Get(rcv, id.Key())
    ensures Of(React(cfg, rcv, e).1, id.Key()) == []
  {
    hide Receive, Hash, SessionOf;
    var f := e.frame;
    if |f.data| > 4 {
      SessionFits(f.data);
      HashInjective(SessionOf(f.data), f.header.source, f.header.specific, id.session, id.src, id.dst);
    }
    OfOthers(React(cfg, rcv, e).1, id.Key());
  }

  /**
   For any interleaving of any number of sessions in which no pass raises, the buffer
   and the deliveries of one session equal those of running that session's frames
   alone, and then no pass raises either.
   */
  lemma {:induction false} SessionsAreIndependent(cfg: Config, rcv: RcvBuffers, own: RcvBuffers, es: seq<Event>, id: Id)
    requires (forall e :: e in es ==> Valid(e)) && Calm(cfg, rcv, es)
    requires id.Valid() && Get(rcv, id.Key()) == Get(own, id.Key())
    ensures own.Keys <= {id.Key()} ==> Calm(cfg, own, Alone(es, id))
    ensures var all, alone := Run(cfg, rcv, es), Run(cfg, own, Alone(es, id));
            && Get(all.0, id.Key()) == Get(alone.0, id.Key())
            && Of(all.1, id.Key()) == Of(alone.1, id.Key())
    decreases |es|
  {
    hide React, Hash;
    if es == [] { return; }
    var e, rest := es[0], es[1..];
    assert e in es;
    var (r1, out) := React(cfg, rcv, e);
    OfConcat(out, Run(cfg, r1, rest).1, id.Key());
    if Concerns(e, id) {
      var (o1, ownOut) := React(cfg, own, e);
      OwnStep(cfg, rcv, own, e, id);
      if own.Keys <= {id.Key()} { OwnIsCalm(cfg, rcv, own, e, id); }
      SessionsAreIndependent(cfg, r1, o1, rest, id);
      AloneCons(cfg, own, es, id);
      OfConcat(ownOut, Run(cfg, o1, Alone(rest, id)).1, id.Key());
    } else {
      OtherStep(cfg, rcv, e, id);
      assert Alone(es, id) == Alone(rest, id);
      SessionsAreIndependent(cfg, r1, own, rest, id);
    }
  }

  lemma OwnIsCalm(cfg: Config, rcv: RcvBuffers, own: RcvBuffers, e: Event, id: Id)
    requires Valid(e) && Concerns(e, id) && Get(rcv, id.Key()) == Get(own, id.Key()) && own.Keys <= {id.Key()}
    ensures React(cfg, own, e).0.Keys <= {id.Key()}
    ensures e.Pass? && TimeoutsInPool(rcv, e.now) ==> TimeoutsInPool(own, e.now)
  {
    hide Receive, Hash, SessionOf;
    forall k | k in own ensures k in rcv && own[k] == rcv[k] {
      assert k in own.Keys;
    }
  }

  lemma AloneCons(cfg: Config, own: RcvBuffers, es: seq<Event>, id: Id)
    requires es != [] && (forall e :: e in es ==> Valid(e)) && Concerns(es[0], id)
    ensures var o1 := React(cfg, own, es[0]).0;
            (es[0].Pass? ==> TimeoutsInPool(own, es[0].now)) && Calm(cfg, o1, Alone(es[1..], id))
            ==> Calm(cfg, own, Alone(es, id))
    ensures var (o1, out) := React(cfg, own, es[0]);
            var more := Run(cfg, o1, Alone(es[1..], id));
            Run(cfg, own, Alone(es, id)) == (more.0, out + more.1)
  {
    hide React;
    assert Alone(es, id)[1..] == Alone(es[1..], id);
  }

  // ---- why `Pass` is what the job thread does ----

  ghost predicate NumbersInPool(rcv: RcvBuffers) {
    forall k :: k in rcv ==> NumberInPool(rcv[k].session, rcv[k].dst)
  }

  lemma StepInPool(cfg: Config, rcv: RcvBuffers, e: Event)
    requires Valid(e) && InPools(e) && NumbersInPool(rcv)
    ensures NumbersInPool(React(cfg, rcv, e).0)
  {
    hide Hash, CtsFrame, AbortFrame, EomAckFrame;
    if e.Arrive? && |e.frame.data| > 4 {
      var f := e.frame;
      assert |f.data| >= 12 ==> Decode(f.data).session == SessionOf(f.data);
      var buf := Get(rcv, RcvKey(f));
      var r := Receive(cfg, buf, f, e.clock).buf;
      assert r.Some? && buf.Some? ==> r.value.session == buf.value.session && r.value.dst == buf.value.dst;
    }
  }

  /**
   As long as every announcement carries a number of its pool, no timeout raises, so a
   pass of the job thread drops exactly the expired receive buffers.
   */
  lemma {:induction false} PassesNeverRaise(cfg: Config, rcv: RcvBuffers, es: seq<Event>, now: real)
    requires NumbersInPool(rcv) && forall e :: e in es ==> Valid(e) && InPools(e)
    ensures NumbersInPool(Run(cfg, rcv, es).0) && TimeoutsInPool(Run(cfg, rcv, es).0, now)
    ensures Calm(cfg, rcv, es)
    decreases |es|
  {
    hide React;
    if es != [] {
      assert es[0] in es;
      StepInPool(cfg, rcv, es[0]);
      PassesNeverRaise(cfg, React(cfg, rcv, es[0]).0, es[1..], now);
    }
  }

  // ---- a number outside its pool ----

  /** The buffer a request to send opens, whatever number it carries. */
  lemma RtsOpens(cfg: Config, src: int, dst: int, session: int, clock: real)
    requires IsByte(src) && IsByte(dst) && 0 <= session < 16
    ensures var f := RtsFrame(6, src, dst, session, 0xEF00, 61, 2, 1);
            && Valid(Arrive(f, clock)) && |f.data| == 12 && SessionOf(f.data) == session
            && f.header.source == src && f.header.specific == dst
            && var b := Receive(cfg, None, f, clock).buf;
               b.Some? && b.value.session == session && b.value.dst == dst && b.value.deadline == clock + T2
  {
    hide CmData;
    FrameCarries(6, src, dst, Cm(RTS, session, 61, 2, 1, 0xEF00), 0);
    var f := RtsFrame(6, src, dst, session, 0xEF00, 61, 2, 1);
    assert Decode(f.data).session == SessionOf(f.data);
    Received(cfg, None, f, 6, src, dst, Cm(RTS, session, 61, 2, 1, 0xEF00), clock);
  }

  /**
   Two requests to send from a silent peer, the first with a number outside the pool:
   when both have expired, a pass that meets the first buffer first stops there and
   leaves the other, which alone on the bus would have been dropped.
   */
  lemma StrayHoldsUpOthers(cfg: Config, src: int, dst: int, stray: int, number: int, clock: real, now: real)
    requires IsByte(src) && IsByte(dst) && dst != GLOBAL && 8 <= stray < 16 && 0 <= number < 8
    requires 0.0 < clock && clock + T2 <= now
    ensures var first := RtsFrame(6, src, dst, stray, 0xEF00, 61, 2, 1);
            var second := RtsFrame(6, src, dst, number, 0xEF00, 61, 2, 1);
            && Valid(Arrive(first, clock)) && Valid(Arrive(second, clock))
            && var rcv := Run(cfg, map[], [Arrive(first, clock), Arrive(second, clock)]).0;
               var keys := [Hash(stray, src, dst), Hash(number, src, dst)];
               && Enumerates(keys, rcv.Keys) && StoppedAt(rcv, keys, 1, now)
               && keys[1] in Left(rcv, keys[..1], now) && keys[1] !in Surviving(rcv, now)
  {
    hide Receive, Hash, SessionOf, RtsFrame;
    var first, second := RtsFrame(6, src, dst, stray, 0xEF00, 61, 2, 1),
        RtsFrame(6, src, dst, number, 0xEF00, 61, 2, 1);
    RtsOpens(cfg, src, dst, stray, clock);
    RtsOpens(cfg, src, dst, number, clock);
    var k1, k2 := Hash(stray, src, dst), Hash(number, src, dst);
    if k1 == k2 { HashInjective(stray, src, dst, number, src, dst); }
    var e1, e2 := Arrive(first, clock), Arrive(second, clock);
    var rcv1 := React(cfg, map[], e1).0;
    var rcv2 := React(cfg, rcv1, e2).0;
    assert [e1, e2][1..] == [e2] && [e2][1..] == [];
    assert Run(cfg, rcv2, []).0 == rcv2 && Run(cfg, rcv1, [e2]).0 == rcv2 && Run(cfg, map[], [e1, e2]).0 == rcv2;
    assert rcv2.Keys == {k1, k2};
    assert [k1, k2][..0] == [] && [k1, k2][..1] == [k1];
  }
}
