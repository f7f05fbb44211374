/**
 Address claiming settles: without commanded changes, a node gives up at most as many
 addresses as there are nodes with lower NAMEs, the addresses stay apart, and beyond
 the answers to requests only finitely many claims are ever sent.
 */
module ClaimConvergence {
  import opened Common
  import opened Wire
  import opened Claim
  import opened ClaimNetwork

  /** Everything but a commanded change: time passes, claims arrive, requests are answered. */
  ghost predicate Uncommanded(steps: seq<Step>) {
    forall s :: s in steps ==> !s.Change?
  }

  // ---- who has been where ----

  /** The nodes with NAMEs below `x`. */
  ghost function Lower(nodes: seq<Ca>, x: int): set<nat> {
    set l: nat | l < |nodes| && nodes[l].name < x
  }

  /** How many nodes have a lower NAME. */
  ghost function Rank(nodes: seq<Ca>, i: nat): nat
    requires i < |nodes|
  {
    |Lower(nodes, nodes[i].name)|
  }

  /** Addresses the node has claimed so far: it only ever moves up by one. */
  predicate Within(ca: Ca, a: int) {
    !ca.state.NoClaim? && ca.preferred.Some? && ca.preferred.value <= a <= ca.announced
  }

  /** Addresses it has announced: those, and the null address once it cannot claim. */
  predicate Visited(ca: Ca, a: int) {
    Within(ca, a) || (ca.state.CannotClaim? && a == NULL)
  }

  /** Addresses the node has given up. */
  predicate Lost(ca: Ca, a: int) {
    Within(ca, a) && (a < ca.announced || ca.state.CannotClaim?)
  }

  /** What it has announced last. */
  function Last(ca: Ca): int {
    if ca.state.CannotClaim? then NULL else ca.announced
  }

  ghost predicate VisitedBelow(nodes: seq<Ca>, x: int, a: int) {
    exists l :: l in Lower(nodes, x) && Visited(nodes[l], a)
  }

  /** The address bytes that nodes with NAMEs below `x` have visited. */
  ghost function Reach(nodes: seq<Ca>, x: int): set<int> {
    set a | 0 <= a < 256 && VisitedBelow(nodes, x, a)
  }

  /** How often the node has given up an address. */
  function GiveUps(ca: Ca): int {
    if ca.state.NoClaim? || ca.preferred.None? then 0
    else ca.announced - ca.preferred.value + (if ca.state.CannotClaim? then 1 else 0)
  }

  /** No preferred address is so high that two nodes could be driven past the last byte. */
  ghost predicate Roomy(nodes: seq<Ca>) {
    forall i :: 0 <= i < |nodes| && nodes[i].preferred.Some? ==> nodes[i].preferred.value + |nodes| - 1 <= 256
  }

  /** The node with the highest NAME. */
  ghost predicate IsTop(nodes: seq<Ca>, i: nat)
    requires i < |nodes|
  {
    forall l :: 0 <= l < |nodes| ==> nodes[l].name <= nodes[i].name
  }

  /** An address is only given up to a lower NAME that had announced it. */
  ghost predicate GivenUpToLower(nodes: seq<Ca>) {
    forall i, a :: 0 <= i < |nodes| && Lost(nodes[i], a) ==> VisitedBelow(nodes, nodes[i].name, a)
  }

  ghost predicate Ranges(nodes: seq<Ca>) {
    forall i :: 0 <= i < |nodes| && !nodes[i].state.NoClaim? ==>
      nodes[i].preferred.Some? && nodes[i].preferred.value <= nodes[i].announced
  }

  /** A claim names an address its sender has announced; only 256, cut to a byte, is another. */
  ghost predicate Told(nodes: seq<Ca>, m: Msg)
    requires m.from < |nodes|
  {
    IsByte(m.address) && (Visited(nodes[m.from], m.address) || (m.address == 0 && IsTop(nodes, m.from)))
  }

  ghost predicate Honest(net: Net) {
    forall m :: m in net.wire && m.from < |net.nodes| ==> Told(net.nodes, m)
  }

  /** At most the node with the highest NAME gets past the addresses that fit a byte. */
  ghost predicate InRange(nodes: seq<Ca>, i: nat)
    requires i < |nodes|
  {
    !nodes[i].state.NoClaim? ==>
      && nodes[i].announced <= 256
      && (nodes[i].announced == 256 ==> IsTop(nodes, i) && !nodes[i].state.CannotClaim?)
  }

  ghost predicate Settling(net: Net) {
    && Wired(net) && Roomy(net.nodes) && Ranges(net.nodes) && GivenUpToLower(net.nodes) && Honest(net)
    && (forall i :: 0 <= i < |net.nodes| ==> InRange(net.nodes, i))
  }

  // ---- cardinalities ----

  lemma {:induction false} SubsetSize<T>(a: set<T>, b: set<T>)
    requires a <= b
    ensures |a| <= |b|
    decreases |a|
  {
    if x :| x in a {
      SubsetSize(a - {x}, b - {x});
    } else {
      assert a == {};
    }
  }

  ghost function Interval(lo: int, hi: int): (s: set<int>)
    requires lo <= hi
    ensures |s| == hi - lo && forall a :: a in s <==> lo <= a < hi
    decreases hi - lo
  {
    if lo == hi then {} else Interval(lo, hi - 1) + {hi - 1}
  }

  /** The node with the highest NAME among some. */
  lemma {:induction false} Highest(nodes: seq<Ca>, s: set<nat>) returns (m: nat)
    requires s != {} && forall l :: l in s ==> l < |nodes|
    ensures m in s && forall l :: l in s ==> nodes[l].name <= nodes[m].name
    decreases |s|
  {
    m :| m in s;
    var first, rest := m, s - {m};
    if rest == {} {
      assert s == {m};
    } else {
      var n := Highest(nodes, rest);
      if nodes[n].name > nodes[m].name { m := n; }
      assert s == rest + {first};
    }
  }

  ghost predicate Distinct(nodes: seq<Ca>) {
    forall i, j :: 0 <= i < j < |nodes| ==> nodes[i].name != nodes[j].name
  }

  /** Below the highest of them there is one node less. */
  lemma LowerThanHighest(nodes: seq<Ca>, x: int, m: nat)
    requires Distinct(nodes) && m in Lower(nodes, x)
    requires forall l :: l in Lower(nodes, x) ==> nodes[l].name <= nodes[m].name
    ensures Lower(nodes, nodes[m].name) == Lower(nodes, x) - {m}
    ensures |Lower(nodes, nodes[m].name)| == |Lower(nodes, x)| - 1
  {
    forall l | l in Lower(nodes, x) - {m} ensures nodes[l].name < nodes[m].name {
      assert nodes[l].name != nodes[m].name;
    }
    assert Lower(nodes, nodes[m].name) == Lower(nodes, x) - {m};
  }

  /** Only the last address of the highest node is new compared with the nodes below it. */
  lemma HighestAddsOne(nodes: seq<Ca>, x: int, m: nat)
    requires Distinct(nodes) && m in Lower(nodes, x) && GivenUpToLower(nodes)
    requires forall l :: l in Lower(nodes, x) ==> nodes[l].name <= nodes[m].name
    ensures Reach(nodes, x) <= Reach(nodes, nodes[m].name) + {Last(nodes[m])}
  {
    hide Visited;
    LowerThanHighest(nodes, x, m);
    forall a | a in Reach(nodes, x) ensures a in Reach(nodes, nodes[m].name) + {Last(nodes[m])} {
      var l :| l in Lower(nodes, x) && Visited(nodes[l], a);
      if l == m {
        if a != Last(nodes[m]) {
          LostBefore(nodes[m], a);
          assert VisitedBelow(nodes, nodes[m].name, a);
        }
      } else {
        assert l in Lower(nodes, nodes[m].name);
      }
    }
  }

  lemma LostBefore(ca: Ca, a: int)
    requires Visited(ca, a) && a != Last(ca)
    ensures Lost(ca, a)
  {
  }

  /** `r` nodes have visited at most `r` addresses between them. */
  lemma {:induction false} ReachSize(nodes: seq<Ca>, x: int)
    requires Distinct(nodes) && GivenUpToLower(nodes)
    ensures |Reach(nodes, x)| <= |Lower(nodes, x)|
    decreases |Lower(nodes, x)|
  {
    hide Visited, Lost, GivenUpToLower, Distinct;
    if Lower(nodes, x) == {} {
      assert Reach(nodes, x) == {};
    } else {
      var m := Highest(nodes, Lower(nodes, x));
      LowerThanHighest(nodes, x, m);
      ReachSize(nodes, nodes[m].name);
      HighestAddsOne(nodes, x, m);
      SubsetSize(Reach(nodes, x), Reach(nodes, nodes[m].name) + {Last(nodes[m])});
    }
  }

  /** What a node lost was visited by lower NAMEs, so it lost at most its rank. */
  lemma GiveUpsBounded(nodes: seq<Ca>, i: nat)
    requires i < |nodes| && Distinct(nodes) && GivenUpToLower(nodes) && Ranges(nodes) && Wf(nodes[i])
    requires forall a :: Lost(nodes[i], a) ==> a < 256
    ensures 0 <= GiveUps(nodes[i]) <= Rank(nodes, i)
  {
    hide Distinct;
    var ca := nodes[i];
    if !ca.state.NoClaim? {
      var lo := ca.preferred.value;
      var hi := ca.announced + (if ca.state.CannotClaim? then 1 else 0);
      var lost := Interval(lo, hi);
      forall a | a in lost ensures a in Reach(nodes, ca.name) {
        assert Lost(ca, a);
        assert VisitedBelow(nodes, ca.name, a);
      }
      SubsetSize(lost, Reach(nodes, ca.name));
      ReachSize(nodes, ca.name);
    }
  }

  /** The first `n` nodes. */
  ghost function Indices(n: nat): (s: set<nat>)
    ensures |s| == n && forall l: nat :: l in s <==> l < n
  {
    if n == 0 then {} else Indices(n - 1) + {n - 1}
  }

  lemma RankBelowCount(nodes: seq<Ca>, i: nat)
    requires i < |nodes|
    ensures Rank(nodes, i) <= |nodes| - 1
    ensures Rank(nodes, i) == |nodes| - 1 ==> IsTop(nodes, i)
  {
    SubsetSize(Lower(nodes, nodes[i].name), Indices(|nodes|) - {i});
    forall l | 0 <= l < |nodes| && nodes[l].name > nodes[i].name ensures Rank(nodes, i) < |nodes| - 1 {
      SubsetSize(Lower(nodes, nodes[i].name), Indices(|nodes|) - {i} - {l});
    }
  }

  // ---- every step but a commanded change keeps this ----

  /** Nodes stay who they are and never forget where they were. */
  ghost predicate Grows(before: seq<Ca>, after: seq<Ca>) {
    && |after| == |before|
    && (forall l :: 0 <= l < |before| ==> after[l].name == before[l].name && after[l].preferred == before[l].preferred)
    && (forall l, a :: 0 <= l < |before| && Visited(before[l], a) ==> Visited(after[l], a))
  }

  lemma LowerSame(before: seq<Ca>, after: seq<Ca>, x: int)
    requires Grows(before, after)
    ensures Lower(before, x) == Lower(after, x)
  {
    hide Visited;
  }

  lemma VisitedGrows(before: seq<Ca>, after: seq<Ca>, x: int, a: int)
    requires Grows(before, after) && VisitedBelow(before, x, a)
    ensures VisitedBelow(after, x, a)
  {
    hide Visited;
    LowerSame(before, after, x);
    var l :| l in Lower(before, x) && Visited(before[l], a);
    assert l in Lower(after, x) && Visited(after[l], a);
  }

  /** What a node may turn into: it remembers, and loses addresses only to lower NAMEs. */
  ghost predicate Moves(nodes: seq<Ca>, i: nat, ca: Ca)
    requires i < |nodes|
  {
    && Wf(ca) && ca.name == nodes[i].name && ca.preferred == nodes[i].preferred
    && (forall a :: Visited(nodes[i], a) ==> Visited(ca, a))
    && (!ca.state.NoClaim? ==> ca.preferred.Some? && ca.preferred.value <= ca.announced)
    && (forall a :: Lost(ca, a) ==> a < 256 && (Lost(nodes[i], a) || VisitedBelow(nodes, ca.name, a)))
  }

  lemma MovesGrow(nodes: seq<Ca>, i: nat, ca: Ca)
    requires i < |nodes| && Moves(nodes, i, ca)
    ensures Grows(nodes, nodes[i := ca])
  {
    hide Visited, Lost;
  }

  lemma MovesGiveUp(nodes: seq<Ca>, i: nat, ca: Ca)
    requires i < |nodes| && Moves(nodes, i, ca) && GivenUpToLower(nodes)
    ensures GivenUpToLower(nodes[i := ca])
  {
    hide Visited, Lost, VisitedBelow;
    var after := nodes[i := ca];
    MovesGrow(nodes, i, ca);
    forall j, a | 0 <= j < |after| && Lost(after[j], a) ensures VisitedBelow(after, after[j].name, a) {
      assert VisitedBelow(nodes, nodes[j].name, a);
      VisitedGrows(nodes, after, nodes[j].name, a);
    }
  }

  /** A node whose lost addresses are accounted for has gone up by at most its rank. */
  lemma StaysInRange(nodes: seq<Ca>, i: nat)
    requires i < |nodes| && Distinct(nodes) && GivenUpToLower(nodes) && Ranges(nodes) && Roomy(nodes) && Wf(nodes[i])
    requires forall a :: Lost(nodes[i], a) ==> a < 256
    ensures 0 <= GiveUps(nodes[i]) <= Rank(nodes, i) && InRange(nodes, i)
  {
    hide Distinct;
    GiveUpsBounded(nodes, i);
    RankBelowCount(nodes, i);
    var ca := nodes[i];
    if !ca.state.NoClaim? && ca.state.CannotClaim? { assert Lost(ca, ca.announced); }
  }

  lemma ActSettles(nodes: seq<Ca>, wire: seq<Msg>, i: nat, ca: Ca, sent: seq<int>)
    requires i < |nodes| && Settling(Net(nodes, wire)) && Moves(nodes, i, ca)
    requires sent == [] || Visited(ca, sent[0])
    ensures Settling(Act(nodes, wire, i, ca, sent))
  {
    hide Visited, Lost, VisitedBelow, Wf, IsTop;
    var after := Act(nodes, wire, i, ca, sent);
    ActWired(nodes, wire, i, ca, sent);
    MovesGrow(nodes, i, ca);
    MovesGiveUp(nodes, i, ca);
    assert Distinct(after.nodes);
    StaysInRange(after.nodes, i);
    TopStays(nodes, after.nodes);
    if sent != [] {
      BroadcastReaches(|nodes|, i, sent[0]);
      VisitedRange(after.nodes, i, sent[0]);
    }
    forall m | m in after.wire ensures Told(after.nodes, m) {
      if m in wire { assert Told(nodes, m); }
      else { assert m.from == i && m.address == sent[0] % 0x100; }
    }
    forall j | 0 <= j < |nodes| ensures InRange(after.nodes, j) {
      if j != i { assert InRange(nodes, j); }
    }
  }

  lemma TopStays(before: seq<Ca>, after: seq<Ca>)
    requires |after| == |before| && forall l :: 0 <= l < |before| ==> after[l].name == before[l].name
    ensures forall l :: 0 <= l < |before| ==> IsTop(before, l) == IsTop(after, l)
  {
  }

  /** What is announced fits a byte, except for 256. */
  lemma VisitedRange(nodes: seq<Ca>, i: nat, a: int)
    requires i < |nodes| && Wf(nodes[i]) && InRange(nodes, i) && Visited(nodes[i], a)
    ensures 0 <= a <= 256 && (a == 256 ==> IsTop(nodes, i))
    ensures Told(nodes, Msg(i, i, a % 0x100))
  {
  }

  lemma TickMoves(nodes: seq<Ca>, i: nat)
    requires i < |nodes| && Settling(Net(nodes, []))
    ensures Moves(nodes, i, Tick(nodes[i]).0)
    ensures var (ca, sent) := Tick(nodes[i]); sent == [] || Visited(ca, sent[0])
  {
    hide VisitedBelow;
    assert InRange(nodes, i);
  }

  /** The contender has visited the address, and its NAME is lower. */
  lemma HearMoves(nodes: seq<Ca>, i: nat, j: nat, address: int)
    requires i < |nodes| && j < |nodes| && i != j && Settling(Net(nodes, []))
    requires Told(nodes, Msg(i, j, address))
    ensures Moves(nodes, i, Hear(nodes[i], address, nodes[j].name).0)
    ensures var (ca, sent) := Hear(nodes[i], address, nodes[j].name); sent == [] || Visited(ca, sent[0])
  {
    assert InRange(nodes, i);
    var before := nodes[i];
    var (ca, sent) := Hear(before, address, nodes[j].name);
    if sent != [] && before.name > nodes[j].name {
      assert address == before.announced && Visited(nodes[j], address);
      assert j in Lower(nodes, before.name);
      assert VisitedBelow(nodes, before.name, before.announced);
      forall a | Lost(ca, a) ensures a < 256 && (Lost(before, a) || VisitedBelow(nodes, ca.name, a)) {
        assert a == before.announced || Lost(before, a);
      }
    }
  }

  lemma EmptyWire(net: Net)
    requires Settling(net)
    ensures Settling(Net(net.nodes, []))
  {
    hide Visited, Lost, VisitedBelow, Wf;
  }

  lemma TickSettles(net: Net, i: nat)
    requires Settling(net) && i < |net.nodes|
    ensures Settling(Apply(net, TickOf(i)))
  {
    hide Settling, Act, Tick, Visited, Moves;
    EmptyWire(net);
    TickMoves(net.nodes, i);
    var (ca, sent) := Tick(net.nodes[i]);
    ActSettles(net.nodes, net.wire, i, ca, sent);
  }

  lemma DeliverSettles(net: Net, k: nat)
    requires Settling(net) && k < |net.wire|
    ensures Settling(Apply(net, Deliver(k)))
  {
    hide Act, Hear, Visited, Lost, VisitedBelow, Wf, Moves, Remove;
    var m, rest := net.wire[k], Remove(net.wire, k);
    EmptyWire(net);
    HearMoves(net.nodes, m.to, m.from, m.address);
    Removed(net.wire, k);
    var (ca, sent) := Hear(net.nodes[m.to], m.address, net.nodes[m.from].name);
    ActSettles(net.nodes, rest, m.to, ca, sent);
  }

  lemma StartedSettles(net: Net, i: nat, on: bool)
    requires Settling(net) && i < |net.nodes|
    ensures Settling(Apply(net, SetStarted(i, on)))
  {
    var ca := net.nodes[i].(started := on);
    StartedMoves(net.nodes, i, on);
    ActSettles(net.nodes, net.wire, i, ca, []);
  }

  lemma StartedMoves(nodes: seq<Ca>, i: nat, on: bool)
    requires i < |nodes| && Settling(Net(nodes, []))
    ensures Moves(nodes, i, nodes[i].(started := on))
  {
    hide VisitedBelow;
    assert InRange(nodes, i);
    var ca := nodes[i].(started := on);
    assert forall a :: Lost(ca, a) ==> Lost(nodes[i], a);
  }

  lemma RequestSettles(net: Net, i: nat, dst: int)
    requires Settling(net) && i < |net.nodes|
    ensures Settling(Apply(net, Request(i, dst)))
  {
    EmptyWire(net);
    StaysPut(net.nodes, i, dst);
    ActSettles(net.nodes, net.wire, i, net.nodes[i], Asked(net.nodes[i], dst));
  }

  lemma StaysPut(nodes: seq<Ca>, i: nat, dst: int)
    requires i < |nodes| && Settling(Net(nodes, []))
    ensures Moves(nodes, i, nodes[i])
    ensures var sent := Asked(nodes[i], dst); sent == [] || Visited(nodes[i], sent[0])
  {
    hide VisitedBelow;
    assert InRange(nodes, i);
  }

  lemma StepSettles(net: Net, s: Step)
    requires Settling(net) && !s.Change? && Enabled(net, s)
    ensures Settling(Apply(net, s))
  {
    hide Settling, Apply;
    match s {
      case TickOf(i) => TickSettles(net, i);
      case Deliver(k) => DeliverSettles(net, k);
      case Request(i, dst) => RequestSettles(net, i, dst);
      case SetStarted(i, on) => StartedSettles(net, i, on);
    }
  }

  // ---- what is left to be sent ----

  function Pow(n: nat, k: nat): (p: nat)
    ensures n > 0 ==> p > 0
  {
    if k == 0 then 1
    else
      var q := Pow(n, k - 1);
      assert n > 0 ==> n * q > 0;
      n * q
  }

  lemma {:induction false} PowGrows(n: nat, j: nat, k: nat)
    requires n > 0 && j < k
    ensures n * Pow(n, j) <= Pow(n, k)
    decreases k
  {
    if j < k - 1 {
      PowGrows(n, j, k - 1);
      MulMono(1, n, Pow(n, k - 1));
    }
  }

  /** A claim of a node costs more than any broadcast of a lower NAME it may provoke. */
  ghost function Cost(nodes: seq<Ca>, i: nat): nat
    requires i < |nodes|
  {
    Pow(|nodes|, Rank(nodes, i))
  }

  ghost function WireCost(nodes: seq<Ca>, wire: seq<Msg>): nat {
    if wire == [] then 0
    else
      var last := wire[|wire| - 1].from;
      WireCost(nodes, wire[..|wire| - 1]) + (if last < |nodes| then Cost(nodes, last) else 0)
  }

  /** Announcements a node may still make on its own account: the first, and one for each address lost. */
  ghost function Left(nodes: seq<Ca>, i: nat): int
    requires i < |nodes|
  {
    Rank(nodes, i) + 1 - (if nodes[i].state.NoClaim? then 0 else 1 + GiveUps(nodes[i]))
  }

  ghost function Reserve(nodes: seq<Ca>, n: nat): int
    requires n <= |nodes|
  {
    if n == 0 then 0 else Reserve(nodes, n - 1) + Left(nodes, n - 1) * (|nodes| * Cost(nodes, n - 1))
  }

  /** Falls with every claim sent and with every message processed. */
  ghost function Potential(net: Net): int {
    WireCost(net.nodes, net.wire) + Reserve(net.nodes, |net.nodes|)
  }

  ghost predicate SameNames(before: seq<Ca>, after: seq<Ca>) {
    |after| == |before| && forall l :: 0 <= l < |before| ==> after[l].name == before[l].name
  }

  lemma CostSame(before: seq<Ca>, after: seq<Ca>, i: nat)
    requires SameNames(before, after) && i < |before|
    ensures Rank(before, i) == Rank(after, i) && Cost(before, i) == Cost(after, i)
  {
    assert Lower(before, before[i].name) == Lower(after, after[i].name);
  }

  lemma {:induction false} WireCostSame(before: seq<Ca>, after: seq<Ca>, wire: seq<Msg>)
    requires SameNames(before, after)
    ensures WireCost(before, wire) == WireCost(after, wire)
  {
    hide Cost;
    if wire != [] {
      WireCostSame(before, after, wire[..|wire| - 1]);
      var last := wire[|wire| - 1].from;
      if last < |before| { CostSame(before, after, last); }
    }
  }

  lemma {:induction false} WireCostConcat(nodes: seq<Ca>, a: seq<Msg>, b: seq<Msg>)
    ensures WireCost(nodes, a + b) == WireCost(nodes, a) + WireCost(nodes, b)
  {
    hide Cost;
    if b == [] {
      assert a + b == a;
    } else {
      var most, last := b[..|b| - 1], b[|b| - 1];
      assert (a + b)[..|a + b| - 1] == a + most && (a + b)[|a + b| - 1] == last;
      WireCostConcat(nodes, a, most);
    }
  }

  lemma WireCostOne(nodes: seq<Ca>, m: Msg)
    requires m.from < |nodes|
    ensures WireCost(nodes, [m]) == Cost(nodes, m.from)
  {
    hide Cost;
    assert [m][..0] == [];
  }

  lemma WireCostRemove(nodes: seq<Ca>, wire: seq<Msg>, k: nat)
    requires k < |wire| && wire[k].from < |nodes|
    ensures WireCost(nodes, Remove(wire, k)) == WireCost(nodes, wire) - Cost(nodes, wire[k].from)
  {
    hide Cost, WireCost;
    assert wire == wire[..k] + ([wire[k]] + wire[k + 1..]);
    WireCostConcat(nodes, wire[..k], [wire[k]] + wire[k + 1..]);
    WireCostConcat(nodes, [wire[k]], wire[k + 1..]);
    WireCostConcat(nodes, wire[..k], wire[k + 1..]);
    WireCostOne(nodes, wire[k]);
  }

  lemma {:induction false} BroadcastCost(nodes: seq<Ca>, n: nat, i: nat, address: int)
    requires i < |nodes|
    ensures WireCost(nodes, Broadcast(n, i, address)) == (if i < n then n - 1 else n) * Cost(nodes, i)
  {
    hide Cost, WireCost;
    var c := Cost(nodes, i);
    if n == 0 {
      WireCostNone(nodes);
    } else {
      BroadcastCost(nodes, n - 1, i, address);
      var before := if i < n - 1 then n - 2 else n - 1;
      if n - 1 == i {
        assert Broadcast(n, i, address) == Broadcast(n - 1, i, address);
      } else {
        var m := Msg(n - 1, i, address % 0x100);
        assert Broadcast(n, i, address) == Broadcast(n - 1, i, address) + [m];
        WireCostConcat(nodes, Broadcast(n - 1, i, address), [m]);
        WireCostOne(nodes, m);
        assert (before + 1) * c == before * c + c;
      }
    }
  }

  lemma WireCostNone(nodes: seq<Ca>)
    ensures WireCost(nodes, []) == 0
  {
  }

  lemma {:induction false} ReserveUpdate(nodes: seq<Ca>, i: nat, ca: Ca, n: nat)
    requires i < |nodes| && ca.name == nodes[i].name && n <= |nodes|
    ensures Reserve(nodes[i := ca], n)
         == Reserve(nodes, n)
            + (if i < n then (Left(nodes[i := ca], i) - Left(nodes, i)) * (|nodes| * Cost(nodes, i)) else 0)
  {
    hide Cost, Left;
    var after := nodes[i := ca];
    if n > 0 {
      ReserveUpdate(nodes, i, ca, n - 1);
      CostSame(nodes, after, n - 1);
      if n - 1 == i {
        var x, y, c := Left(after, i), Left(nodes, i), |nodes| * Cost(nodes, i);
        assert x * c == y * c + (x - y) * c;
      } else {
        LeftSame(nodes, after, n - 1);
      }
    }
  }

  lemma LeftSame(before: seq<Ca>, after: seq<Ca>, i: nat)
    requires SameNames(before, after) && i < |before| && before[i] == after[i]
    ensures Left(before, i) == Left(after, i)
  {
    CostSame(before, after, i);
  }

  /** Potential after node `i` became `ca` and announced something. */
  lemma ActPotential(nodes: seq<Ca>, wire: seq<Msg>, i: nat, ca: Ca, sent: seq<int>)
    requires i < |nodes| && ca.name == nodes[i].name
    ensures var c := Cost(nodes, i);
            Potential(Act(nodes, wire, i, ca, sent))
            == Potential(Net(nodes, wire)) + (if sent == [] then 0 else (|nodes| - 1) * c)
               + (Left(nodes[i := ca], i) - Left(nodes, i)) * (|nodes| * c)
  {
    hide Cost, Left, WireCost, Reserve;
    var after, more := nodes[i := ca], Broadcasts(|nodes|, i, sent);
    WireCostSame(nodes, after, wire + more);
    WireCostConcat(nodes, wire, more);
    if sent == [] { WireCostNone(nodes); } else { BroadcastCost(nodes, |nodes|, i, sent[0]); }
    ReserveUpdate(nodes, i, ca, |nodes|);
  }

  lemma CostPositive(nodes: seq<Ca>, i: nat)
    requires i < |nodes|
    ensures Cost(nodes, i) >= 1
  {
  }

  /** A node that announces on its own account pays for it from its reserve. */
  lemma PaysFromReserve(nodes: seq<Ca>, wire: seq<Msg>, i: nat, ca: Ca, sent: seq<int>)
    requires i < |nodes| && ca.name == nodes[i].name && sent != []
    requires Left(nodes[i := ca], i) == Left(nodes, i) - 1
    ensures Potential(Act(nodes, wire, i, ca, sent)) < Potential(Net(nodes, wire))
  {
    hide Cost, Left, Potential;
    ActPotential(nodes, wire, i, ca, sent);
    CostPositive(nodes, i);
    var c, n := Cost(nodes, i), |nodes|;
    assert (n - 1) * c == n * c - c;
    assert (-1) * (n * c) == -(n * c);
  }

  /** A node that keeps its accounts changes the potential by what it announces. */
  lemma KeepsReserve(nodes: seq<Ca>, wire: seq<Msg>, i: nat, ca: Ca, sent: seq<int>)
    requires i < |nodes| && ca.name == nodes[i].name && Left(nodes[i := ca], i) == Left(nodes, i)
    ensures Potential(Act(nodes, wire, i, ca, sent))
         == Potential(Net(nodes, wire)) + (if sent == [] then 0 else (|nodes| - 1) * Cost(nodes, i))
  {
    hide Cost, Left, Potential;
    ActPotential(nodes, wire, i, ca, sent);
    assert 0 * (|nodes| * Cost(nodes, i)) == 0;
  }

  lemma LeftAfter(nodes: seq<Ca>, i: nat, ca: Ca)
    requires i < |nodes| && ca.name == nodes[i].name
    ensures Left(nodes[i := ca], i) - Left(nodes, i)
         == (if nodes[i].state.NoClaim? then 0 else 1 + GiveUps(nodes[i]))
             - (if ca.state.NoClaim? then 0 else 1 + GiveUps(ca))
  {
    CostSame(nodes, nodes[i := ca], i);
  }

  lemma TickPotential(net: Net, i: nat)
    requires Settling(net) && i < |net.nodes|
    ensures var sent, after := Tick(net.nodes[i]).1, Potential(Apply(net, TickOf(i)));
            if sent != [] then after < Potential(net) else after == Potential(net)
  {
    hide Potential, Left, Cost, Visited, Lost, VisitedBelow;
    var (ca, sent) := Tick(net.nodes[i]);
    LeftAfter(net.nodes, i, ca);
    assert net == Net(net.nodes, net.wire);
    if sent != [] { PaysFromReserve(net.nodes, net.wire, i, ca, sent); }
    else { KeepsReserve(net.nodes, net.wire, i, ca, sent); }
  }

  /** A lower NAME has a lower rank. */
  lemma RankOrder(nodes: seq<Ca>, i: nat, j: nat)
    requires i < |nodes| && j < |nodes| && nodes[i].name < nodes[j].name
    ensures Rank(nodes, i) < Rank(nodes, j)
  {
    assert i in Lower(nodes, nodes[j].name) && i !in Lower(nodes, nodes[i].name);
    SubsetSize(Lower(nodes, nodes[i].name) + {i}, Lower(nodes, nodes[j].name));
  }

  /** The message a lower NAME answers costs more than the answer. */
  lemma DefenceIsCheaper(nodes: seq<Ca>, i: nat, j: nat)
    requires i < |nodes| && j < |nodes| && nodes[i].name < nodes[j].name
    ensures (|nodes| - 1) * Cost(nodes, i) < Cost(nodes, j)
  {
    RankOrder(nodes, i, j);
    PowGrows(|nodes|, Rank(nodes, i), Rank(nodes, j));
    CostPositive(nodes, i);
    var n, c := |nodes|, Cost(nodes, i);
    assert (n - 1) * c == n * c - c;
  }

  lemma DeliverPotential(net: Net, k: nat)
    requires Settling(net) && k < |net.wire|
    ensures Potential(Apply(net, Deliver(k))) < Potential(net)
  {
    hide Left, Cost, Visited, Lost, VisitedBelow, Wf, Reserve, WireCost, Remove, Roomy, GivenUpToLower, Honest;
    var m, rest := net.wire[k], Remove(net.wire, k);
    var i, j := m.to, m.from;
    var node := net.nodes[i];
    var (ca, sent) := Hear(node, m.address, net.nodes[j].name);
    WireCostRemove(net.nodes, net.wire, k);
    CostPositive(net.nodes, j);
    assert Potential(Net(net.nodes, rest)) == Potential(net) - Cost(net.nodes, j);
    LeftAfter(net.nodes, i, ca);
    assert node.name != net.nodes[j].name;
    if sent == [] {
      KeepsReserve(net.nodes, rest, i, ca, sent);
    } else if node.name > net.nodes[j].name {
      PaysFromReserve(net.nodes, rest, i, ca, sent);
    } else {
      KeepsReserve(net.nodes, rest, i, ca, sent);
      DefenceIsCheaper(net.nodes, i, j);
    }
  }

  lemma StartedPotential(net: Net, i: nat, on: bool)
    requires i < |net.nodes| && Wired(net)
    ensures Potential(Apply(net, SetStarted(i, on))) == Potential(net)
  {
    hide Potential, Left, Cost;
    var ca := net.nodes[i].(started := on);
    LeftAfter(net.nodes, i, ca);
    KeepsReserve(net.nodes, net.wire, i, ca, []);
    assert net == Net(net.nodes, net.wire);
  }

  lemma {:induction false} ReserveBounded(net: Net, n: nat)
    requires Settling(net) && n <= |net.nodes|
    ensures Reserve(net.nodes, n) >= 0
  {
    hide Cost, Settling;
    if n > 0 {
      ReserveBounded(net, n - 1);
      LeftBounded(net, n - 1);
      MulMono(0, Left(net.nodes, n - 1), |net.nodes| * Cost(net.nodes, n - 1));
      MulMono(0, |net.nodes|, Cost(net.nodes, n - 1));
    }
  }

  lemma LeftBounded(net: Net, i: nat)
    requires Settling(net) && i < |net.nodes|
    ensures Left(net.nodes, i) >= 0 && 0 <= GiveUps(net.nodes[i]) <= Rank(net.nodes, i) && InRange(net.nodes, i)
  {
    assert Distinct(net.nodes) && InRange(net.nodes, i);
    StaysInRange(net.nodes, i);
  }

  lemma RequestPotential(net: Net, i: nat, dst: int)
    requires Settling(net) && i < |net.nodes|
    ensures Potential(Apply(net, Request(i, dst)))
         == Potential(net) + (if Asked(net.nodes[i], dst) == [] then 0 else (|net.nodes| - 1) * Cost(net.nodes, i))
  {
    hide Potential, Left, Cost, Asked;
    assert net.nodes[i := net.nodes[i]] == net.nodes;
    KeepsReserve(net.nodes, net.wire, i, net.nodes[i], Asked(net.nodes[i], dst));
    assert net == Net(net.nodes, net.wire);
  }

  // ---- main results ----

  /** A claim is sent, or a message is processed. */
  predicate Productive(net: Net, s: Step)
    requires Enabled(net, s)
  {
    match s
    case TickOf(i) => Tick(net.nodes[i]).1 != []
    case Deliver(_) => true
    case Request(i, dst) => Asked(net.nodes[i], dst) != []
    case _ => false
  }

  /** What a request may cost: the answer to it, and the answers that one provokes. */
  ghost function Due(nodes: seq<Ca>, s: Step): nat {
    if s.Request? && s.node < |nodes| then |nodes| * Cost(nodes, s.node) else 0
  }

  /** Of the steps without a command, only answers to requests raise the potential, and by less than their due. */
  lemma StepPotential(net: Net, s: Step)
    requires Settling(net) && !s.Change? && Enabled(net, s)
    ensures 0 <= Potential(net)
    ensures !s.Request? ==>
              if Productive(net, s) then Potential(Apply(net, s)) < Potential(net)
              else Potential(Apply(net, s)) == Potential(net)
    ensures Potential(Apply(net, s)) + (if Productive(net, s) then 1 else 0) <= Potential(net) + Due(net.nodes, s)
  {
    hide Potential, Cost, Visited, Lost, Act, Tick, Hear, Apply;
    PotentialBounded(net);
    match s {
      case TickOf(i) => TickPotential(net, i);
      case Deliver(k) => DeliverPotential(net, k);
      case SetStarted(i, on) => StartedPotential(net, i, on);
      case Request(i, dst) =>
        RequestPotential(net, i, dst);
        CostPositive(net.nodes, i);
        var n, c := |net.nodes|, Cost(net.nodes, i);
        assert (n - 1) * c == n * c - c;
    }
  }

  lemma PotentialBounded(net: Net)
    requires Settling(net)
    ensures 0 <= Potential(net)
  {
    hide Settling;
    ReserveBounded(net, |net.nodes|);
  }

  lemma StepNames(net: Net, s: Step)
    requires Settling(net) && Enabled(net, s)
    ensures SameNames(net.nodes, Apply(net, s).nodes)
  {
  }

  /** A run goes on as one. */
  lemma Later(net: Net, steps: seq<Step>)
    requires Settling(net) && Inv(net) && Runs(net, steps) && Uncommanded(steps) && steps != []
    ensures !steps[0].Change? && Enabled(net, steps[0]) && Uncommanded(steps[1..])
    ensures var next := Apply(net, steps[0]);
            && Settling(next) && Inv(next) && Runs(next, steps[1..]) && Final(net, steps) == Final(next, steps[1..])
            && SameNames(net.nodes, next.nodes)
  {
    hide Settling, Inv, Apply, SameNames, Enabled;
    StepInv(net, steps[0]);
    StepSettles(net, steps[0]);
    StepNames(net, steps[0]);
  }

  lemma {:induction false} RunSettles(net: Net, steps: seq<Step>)
    requires Settling(net) && Inv(net) && Runs(net, steps) && Uncommanded(steps)
    ensures var after := Final(net, steps); Settling(after) && Inv(after) && SameNames(net.nodes, after.nodes)
    decreases |steps|
  {
    hide Settling, Contested, Wired, Uncommanded;
    if steps != [] {
      Later(net, steps);
      RunSettles(Apply(net, steps[0]), steps[1..]);
    }
  }

  /** Nobody has claimed anything yet, and preferred addresses leave room. */
  ghost predicate Beginning(net: Net): (r: bool)
    ensures r ==> Settling(net) && Inv(net)
  {
    Fresh(net) && Roomy(net.nodes)
  }

  /** In this step node `i` hears a lower NAME at its address and lets go of it. */
  predicate Releases(net: Net, s: Step, i: nat)
    requires Wired(net) && Enabled(net, s) && i < |net.nodes|
  {
    s.Deliver? && net.wire[s.index].to == i && Claimed(Apply(net, s).nodes[i]) != Claimed(net.nodes[i])
  }

  lemma StepGiveUps(net: Net, s: Step, i: nat)
    requires Settling(net) && !s.Change? && Enabled(net, s) && i < |net.nodes|
    ensures |Apply(net, s).nodes| == |net.nodes|
    ensures GiveUps(Apply(net, s).nodes[i]) == GiveUps(net.nodes[i]) + (if Releases(net, s, i) then 1 else 0)
  {
    hide Lost, VisitedBelow, Visited, Honest, GivenUpToLower, Remove, Broadcasts;
  }

  /** How many addresses node `i` lets go of in a run. */
  ghost function ReleaseCount(net: Net, steps: seq<Step>, i: nat): nat
    requires Inv(net) && Runs(net, steps) && i < |net.nodes|
    decreases |steps|
  {
    if steps == [] then 0
    else
      StepInv(net, steps[0]);
      (if Releases(net, steps[0], i) then 1 else 0) + ReleaseCount(Apply(net, steps[0]), steps[1..], i)
  }

  lemma {:induction false} GiveUpsCountReleases(net: Net, steps: seq<Step>, i: nat)
    requires Settling(net) && Inv(net) && Runs(net, steps) && Uncommanded(steps) && i < |net.nodes|
    ensures |Final(net, steps).nodes| == |net.nodes|
    ensures GiveUps(Final(net, steps).nodes[i]) == GiveUps(net.nodes[i]) + ReleaseCount(net, steps, i)
    decreases |steps|
  {
    hide Visited, Lost, Act, Tick, Hear, GiveUps, Releases, Settling, Contested, Wired, Apply, Uncommanded;
    if steps != [] {
      Later(net, steps);
      StepGiveUps(net, steps[0], i);
      GiveUpsCountReleases(Apply(net, steps[0]), steps[1..], i);
    }
  }

  /**
   Over every run without commanded changes, requests included: a node lets go of at
   most as many addresses as there are lower NAMEs, so the address it announces last
   is at most that far above the one it prefers.
   */
  lemma GiveUpsWithinRank(net: Net, steps: seq<Step>, i: nat)
    requires Beginning(net) && Runs(net, steps) && Uncommanded(steps) && i < |net.nodes|
    ensures ReleaseCount(net, steps, i) <= Rank(net.nodes, i)
    ensures var after := Final(net, steps);
            && |after.nodes| == |net.nodes| && GiveUps(after.nodes[i]) == ReleaseCount(net, steps, i)
            && after.nodes[i].preferred == net.nodes[i].preferred
            && (!after.nodes[i].state.NoClaim? ==>
                  && after.nodes[i].preferred.Some?
                  && 0 <= after.nodes[i].announced - after.nodes[i].preferred.value <= Rank(net.nodes, i))
  {
    hide Settling, Inv;
    RunSettles(net, steps);
    GiveUpsCountReleases(net, steps, i);
    PreferenceStays(net, steps, i);
    var after := Final(net, steps);
    CostSame(net.nodes, after.nodes, i);
    LeftBounded(after, i);
    if !after.nodes[i].state.NoClaim? { AnnouncedRange(after, i); }
  }

  lemma AnnouncedRange(net: Net, i: nat)
    requires Settling(net) && i < |net.nodes| && !net.nodes[i].state.NoClaim?
    ensures net.nodes[i].preferred.Some? && net.nodes[i].preferred.value <= net.nodes[i].announced
  {
  }

  lemma {:induction false} PreferenceStays(net: Net, steps: seq<Step>, i: nat)
    requires Settling(net) && Inv(net) && Runs(net, steps) && Uncommanded(steps) && i < |net.nodes|
    ensures |Final(net, steps).nodes| == |net.nodes| && Final(net, steps).nodes[i].preferred == net.nodes[i].preferred
    decreases |steps|
  {
    hide Visited, Lost, Settling, Contested, Wired, Uncommanded;
    if steps != [] {
      Later(net, steps);
      PreferenceStays(Apply(net, steps[0]), steps[1..], i);
    }
  }

  /** When the last message has been processed, every node that claims an address has it to itself. */
  lemma SettledIsUnique(net: Net, steps: seq<Step>, i: nat, j: nat)
    requires Beginning(net) && Runs(net, steps) && Uncommanded(steps) && Final(net, steps).wire == []
    requires i < |net.nodes| && j < |net.nodes| && i != j
    ensures var after := Final(net, steps);
            |after.nodes| == |net.nodes|
            && (Claimed(after.nodes[i]).Some? ==> Claimed(after.nodes[i]) != Claimed(after.nodes[j]))
  {
    hide Collide, Settling;
    QuietBusIsUnique(net, steps);
    RunSettles(net, steps);
    var after := Final(net, steps);
    if Claimed(after.nodes[i]).Some? && Claimed(after.nodes[i]) == Claimed(after.nodes[j]) {
      ClashFitsAByte(after, i, j);
    }
  }

  /** Only one node can be past the last byte. */
  lemma ClashFitsAByte(net: Net, i: nat, j: nat)
    requires Settling(net) && i < |net.nodes| && j < |net.nodes| && i != j
    requires Claimed(net.nodes[i]).Some? && Claimed(net.nodes[i]) == Claimed(net.nodes[j])
    ensures Collide(net.nodes[i], net.nodes[j])
  {
    assert InRange(net.nodes, i) && InRange(net.nodes, j);
    assert net.nodes[i].name != net.nodes[j].name;
  }

  /** The node with the lowest NAME keeps the address it prefers. */
  lemma LowestNeverMoves(net: Net, steps: seq<Step>, i: nat)
    requires Beginning(net) && Runs(net, steps) && Uncommanded(steps) && i < |net.nodes|
    requires forall j :: 0 <= j < |net.nodes| ==> net.nodes[i].name <= net.nodes[j].name
    ensures var after := Final(net, steps);
            && |after.nodes| == |net.nodes| && !after.nodes[i].state.CannotClaim?
            && (!after.nodes[i].state.NoClaim? ==> net.nodes[i].preferred == Some(after.nodes[i].announced))
  {
    hide Settling, Inv;
    GiveUpsWithinRank(net, steps, i);
    assert Lower(net.nodes, net.nodes[i].name) == {};
  }

  /** A CA without the arbitrary address bit has its preferred address or none. */
  predicate Fixed(ca: Ca) {
    !ca.arbitrary && !ca.state.NoClaim? ==> ca.preferred == Some(ca.announced)
  }

  lemma StepFixed(net: Net, s: Step, i: nat)
    requires Settling(net) && !s.Change? && Enabled(net, s) && i < |net.nodes| && Fixed(net.nodes[i])
    ensures var after := Apply(net, s);
            |after.nodes| == |net.nodes| && Fixed(after.nodes[i]) && after.nodes[i].arbitrary == net.nodes[i].arbitrary
  {
    hide Lost, VisitedBelow, Visited, Honest, GivenUpToLower, Remove, Broadcasts;
  }

  lemma {:induction false} RunFixed(net: Net, steps: seq<Step>, i: nat)
    requires Settling(net) && Inv(net) && Runs(net, steps) && Uncommanded(steps)
    requires i < |net.nodes| && Fixed(net.nodes[i])
    ensures var after := Final(net, steps);
            |after.nodes| == |net.nodes| && Fixed(after.nodes[i]) && after.nodes[i].arbitrary == net.nodes[i].arbitrary
    decreases |steps|
  {
    hide Settling, Contested, Wired, Uncommanded, Fixed, Apply, Enabled;
    if steps != [] {
      Later(net, steps);
      StepFixed(net, steps[0], i);
      RunFixed(Apply(net, steps[0]), steps[1..], i);
    }
  }

  /**
   Over every run without commanded changes a CA without the arbitrary address bit never
   claims any address but the one it prefers, and once it has lost it, it claims none.
   */
  lemma SingleAddressStays(net: Net, steps: seq<Step>, i: nat)
    requires Beginning(net) && Runs(net, steps) && Uncommanded(steps)
    requires i < |net.nodes| && !net.nodes[i].arbitrary
    ensures var after := Final(net, steps);
            && |after.nodes| == |net.nodes|
            && (Claimed(after.nodes[i]).Some? ==> Claimed(after.nodes[i]) == net.nodes[i].preferred)
            && (GiveUps(after.nodes[i]) > 0 <==> after.nodes[i].state.CannotClaim?)
  {
    hide Settling, Inv;
    RunFixed(net, steps, i);
    PreferenceStays(net, steps, i);
  }

  /** Claims sent and messages processed in a run. */
  ghost function Work(net: Net, steps: seq<Step>): nat
    requires Inv(net) && Runs(net, steps)
    decreases |steps|
  {
    if steps == [] then 0
    else
      StepInv(net, steps[0]);
      (if Productive(net, steps[0]) then 1 else 0) + Work(Apply(net, steps[0]), steps[1..])
  }

  /** What the requests of a run may cost. */
  ghost function Demand(nodes: seq<Ca>, steps: seq<Step>): nat {
    if steps == [] then 0 else Due(nodes, steps[0]) + Demand(nodes, steps[1..])
  }

  lemma {:induction false} DemandSame(before: seq<Ca>, after: seq<Ca>, steps: seq<Step>)
    requires SameNames(before, after)
    ensures Demand(before, steps) == Demand(after, steps)
  {
    hide Cost;
    if steps != [] {
      DemandSame(before, after, steps[1..]);
      if steps[0].Request? && steps[0].node < |before| { CostSame(before, after, steps[0].node); }
    }
  }

  /** In any run without commanded changes only finitely many claims are sent, save for what is asked for. */
  lemma {:induction false} ClaimsAreFinite(net: Net, steps: seq<Step>)
    requires Settling(net) && Inv(net) && Runs(net, steps) && Uncommanded(steps)
    ensures Work(net, steps) <= Potential(net) + Demand(net.nodes, steps)
    decreases |steps|
  {
    hide Potential, Settling, Contested, Wired, Apply, Productive, Due, Enabled, Uncommanded;
    if steps == [] {
      PotentialBounded(net);
    } else {
      Later(net, steps);
      StepPotential(net, steps[0]);
      ClaimsAreFinite(Apply(net, steps[0]), steps[1..]);
      DemandSame(net.nodes, Apply(net, steps[0]).nodes, steps[1..]);
    }
  }

  /** The bound for a fresh network: one announcement and `rank` losses each, at the price of the rank. */
  ghost function Bound(nodes: seq<Ca>, n: nat): nat
    requires n <= |nodes|
  {
    if n == 0 then 0 else Bound(nodes, n - 1) + (Rank(nodes, n - 1) + 1) * Pow(|nodes|, Rank(nodes, n - 1) + 1)
  }

  lemma {:induction false} FreshReserve(nodes: seq<Ca>, n: nat)
    requires n <= |nodes| && forall i :: 0 <= i < |nodes| ==> nodes[i].state.NoClaim?
    ensures Reserve(nodes, n) == Bound(nodes, n)
  {
    if n > 0 {
      FreshReserve(nodes, n - 1);
      assert Pow(|nodes|, Rank(nodes, n - 1) + 1) == |nodes| * Cost(nodes, n - 1);
    }
  }

  /** From the beginning: a bound that only depends on the nodes, their ranks and the requests. */
  lemma WorkIsBounded(net: Net, steps: seq<Step>)
    requires Beginning(net) && Runs(net, steps) && Uncommanded(steps)
    ensures Work(net, steps) <= Bound(net.nodes, |net.nodes|) + Demand(net.nodes, steps)
    ensures (forall s :: s in steps ==> !s.Request?) ==> Work(net, steps) <= Bound(net.nodes, |net.nodes|)
  {
    hide Settling, Bound, Reserve, Inv;
    ClaimsAreFinite(net, steps);
    FreshReserve(net.nodes, |net.nodes|);
    WireCostNone(net.nodes);
    if forall s :: s in steps ==> !s.Request? { NoDemand(net.nodes, steps); }
  }

  lemma {:induction false} NoDemand(nodes: seq<Ca>, steps: seq<Step>)
    requires forall s :: s in steps ==> !s.Request?
    ensures Demand(nodes, steps) == 0
  {
    if steps != [] { NoDemand(nodes, steps[1..]); }
  }
}
