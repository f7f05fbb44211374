/**
 Sessions do not disturb each other: what one address pair receives is what it
 would have received had the frames of all other pairs never been on the bus.
 */
module Isolation21 {
  import opened Common
  import opened Wire
  import opened Transport21

  datatype Event =
    | Arrive(frame: Frame, clock: real)
    | Pass(now: real)

  predicate Valid(e: Event) {
    e.Arrive? ==> InRange(e.frame.header) && IsTransport(e.frame.header)
  }

  type RcvBuffers = map<int, RcvBuf>

  /** The receive side of the layer, all buffers at once. */
  function React(cfg: Config, rcv: RcvBuffers, e: Event): (r: (RcvBuffers, seq<Delivery>))
    requires Valid(e)
  {
    match e
    case Arrive(f, clock) =>
      var k := RcvKey(f.header);
      var r := Receive(cfg, Get(rcv, k), f, clock);
      (Put(rcv, k, r.buf), r.out)
    case Pass(now) =>
      (map k | k in rcv && !Expired(rcv[k], now) :: rcv[k], [])
  }

  function Run(cfg: Config, rcv: RcvBuffers, es: seq<Event>): (r: (RcvBuffers, seq<Delivery>))
    requires forall e :: e in es ==> Valid(e)
    decreases |es|
  {
    if es == [] then (rcv, [])
    else
      var (r1, out1) := React(cfg, rcv, es[0]);
      var (r2, out2) := Run(cfg, r1, es[1..]);
      (r2, out1 + out2)
  }

  predicate Concerns(e: Event, src: int, dst: int) {
    e.Arrive? ==> e.frame.header.source == src && e.frame.header.specific == dst
  }

  /** The events one address pair would see on its own. */
  function Alone(es: seq<Event>, src: int, dst: int): (r: seq<Event>)
    ensures forall e :: e in r ==> e in es && Concerns(e, src, dst)
  {
    if es == [] then [] else (if Concerns(es[0], src, dst) then [es[0]] else []) + Alone(es[1..], src, dst)
  }

  /** The deliveries of one address pair. */
  function Of(ds: seq<Delivery>, src: int, dst: int): seq<Delivery> {
    if ds == [] then []
    else (if ds[0].src == src && ds[0].dst == dst then [ds[0]] else []) + Of(ds[1..], src, dst)
  }

  lemma {:induction false} OfConcat(a: seq<Delivery>, b: seq<Delivery>, src: int, dst: int)
    ensures Of(a + b, src, dst) == Of(a, src, dst) + Of(b, src, dst)
  {
    if a == [] { assert a + b == b; }
    else {
      assert (a + b)[1..] == a[1..] + b;
      OfConcat(a[1..], b, src, dst);
    }
  }

  /** A frame only delivers for its own address pair. */
  lemma DeliversForItsPair(cfg: Config, buf: Option<RcvBuf>, f: Frame, clock: real)
    ensures forall d :: d in Receive(cfg, buf, f, clock).out ==>
              d.src == f.header.source && d.dst == f.header.specific
    ensures |Receive(cfg, buf, f, clock).out| <= 1
  {
  }

  lemma OwnStep(cfg: Config, rcv: RcvBuffers, own: RcvBuffers, e: Event, src: int, dst: int)
    requires Valid(e) && Concerns(e, src, dst) && Get(rcv, Hash(src, dst)) == Get(own, Hash(src, dst))
    ensures Get(React(cfg, rcv, e).0, Hash(src, dst)) == Get(React(cfg, own, e).0, Hash(src, dst))
    ensures React(cfg, rcv, e).1 == React(cfg, own, e).1
  {
  }

  lemma OtherStep(cfg: Config, rcv: RcvBuffers, e: Event, src: int, dst: int)
    requires Valid(e) && !Concerns(e, src, dst) && IsByte(src) && IsByte(dst)
    ensures Get(React(cfg, rcv, e).0, Hash(src, dst)) == Get(rcv, Hash(src, dst))
    ensures Of(React(cfg, rcv, e).1, src, dst) == []
  {
    var h := e.frame.header;
    HashInjective(h.source, h.specific, src, dst);
    DeliversForItsPair(cfg, Get(rcv, RcvKey(h)), e.frame, e.clock);
  }

  /**
   For any interleaving of any number of sessions, the buffer and the deliveries
   of one pair equal those of running that pair's frames alone.
   */
  lemma {:induction false} SessionsAreIndependent(
    cfg: Config, rcv: RcvBuffers, own: RcvBuffers, es: seq<Event>, src: int, dst: int)
    requires forall e :: e in es ==> Valid(e)
    requires IsByte(src) && IsByte(dst) && Get(rcv, Hash(src, dst)) == Get(own, Hash(src, dst))
    ensures var all, alone := Run(cfg, rcv, es), Run(cfg, own, Alone(es, src, dst));
            && Get(all.0, Hash(src, dst)) == Get(alone.0, Hash(src, dst))
            && Of(all.1, src, dst) == Of(alone.1, src, dst)
    decreases |es|
  {
    if es == [] { return; }
    var e, rest := es[0], es[1..];
    var (r1, out) := React(cfg, rcv, e);
    OfConcat(out, Run(cfg, r1, rest).1, src, dst);
    if Concerns(e, src, dst) {
      var (o1, ownOut) := React(cfg, own, e);
      OwnStep(cfg, rcv, own, e, src, dst);
      SessionsAreIndependent(cfg, r1, o1, rest, src, dst);
      AloneCons(cfg, own, es, src, dst);
      OfConcat(ownOut, Run(cfg, o1, Alone(rest, src, dst)).1, src, dst);
    } else {
      OtherStep(cfg, rcv, e, src, dst);
      assert Alone(es, src, dst) == Alone(rest, src, dst);
      SessionsAreIndependent(cfg, r1, own, rest, src, dst);
    }
  }

  lemma AloneCons(cfg: Config, own: RcvBuffers, es: seq<Event>, src: int, dst: int)
    requires es != [] && (forall e :: e in es ==> Valid(e)) && Concerns(es[0], src, dst)
    ensures var (o1, out) := React(cfg, own, es[0]);
            var more := Run(cfg, o1, Alone(es[1..], src, dst));
            Run(cfg, own, Alone(es, src, dst)) == (more.0, out + more.1)
  {
    assert Alone(es, src, dst)[1..] == Alone(es[1..], src, dst);
  }
}
