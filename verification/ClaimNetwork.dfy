/**
 Controller applications with different NAMEs on one bus. A claim is broadcast: one
 message to every other node, each processed whenever the bus gets round to it.
 */
module ClaimNetwork {
  import opened Common
  import opened Claim

  /** A claim of `from` for an address byte, not yet processed by `to`. */
  datatype Msg = Msg(to: nat, from: nat, address: int)

  datatype Net = Net(nodes: seq<Ca>, wire: seq<Msg>)

  datatype Step =
    | TickOf(node: nat)
    | Deliver(index: nat)
    | Change(node: nat, address: int)
    | Request(node: nat, dst: int)
    | SetStarted(node: nat, on: bool)

  predicate Enabled(net: Net, s: Step) {
    match s
    case Deliver(k) => k < |net.wire|
    case TickOf(i) => i < |net.nodes|
    case Change(i, _) => i < |net.nodes|
    case Request(i, _) => i < |net.nodes|
    case SetStarted(i, _) => i < |net.nodes|
  }

  /** One message to each of the first `n` nodes but the sender. */
  function Broadcast(n: nat, from: nat, address: int): seq<Msg> {
    if n == 0 then []
    else Broadcast(n - 1, from, address) + (if n - 1 == from then [] else [Msg(n - 1, from, address % 0x100)])
  }

  function Broadcasts(n: nat, from: nat, addresses: seq<int>): seq<Msg> {
    if addresses == [] then [] else Broadcast(n, from, addresses[0])
  }

  function Remove(wire: seq<Msg>, k: nat): seq<Msg>
    requires k < |wire|
  {
    wire[..k] + wire[k + 1..]
  }

  /** Node `i` becomes `ca` and announces at most one address. */
  function Act(nodes: seq<Ca>, wire: seq<Msg>, i: nat, ca: Ca, addresses: seq<int>): Net
    requires i < |nodes|
  {
    Net(nodes[i := ca], wire + Broadcasts(|nodes|, i, addresses))
  }

  ghost predicate Wired(net: Net) {
    && (forall i :: 0 <= i < |net.nodes| ==> Wf(net.nodes[i]))
    && (forall i, j :: 0 <= i < j < |net.nodes| ==> net.nodes[i].name != net.nodes[j].name)
    && (forall m :: m in net.wire ==> m.to < |net.nodes| && m.from < |net.nodes| && m.to != m.from)
  }

  function Apply(net: Net, s: Step): Net
    requires Wired(net) && Enabled(net, s)
  {
    match s
    case TickOf(i) =>
      var (ca, sent) := Tick(net.nodes[i]);
      Act(net.nodes, net.wire, i, ca, sent)
    case Deliver(k) =>
      var m := net.wire[k];
      var (ca, sent) := Hear(net.nodes[m.to], m.address, net.nodes[m.from].name);
      Act(net.nodes, Remove(net.wire, k), m.to, ca, sent)
    case Change(i, address) =>
      var (ca, sent, _) := Begin(net.nodes[i], address);
      Act(net.nodes, net.wire, i, ca, sent)
    case Request(i, dst) =>
      Act(net.nodes, net.wire, i, net.nodes[i], Asked(net.nodes[i], dst))
    case SetStarted(i, on) =>
      Act(net.nodes, net.wire, i, net.nodes[i].(started := on), [])
  }

  // ---- the distributed invariant ----

  /** Two nodes claim the same address, and the claims reach the bus unharmed. */
  predicate Collide(a: Ca, b: Ca) {
    Claimed(a).Some? && Claimed(a) == Claimed(b) && 0 <= Claimed(a).value < 0x100
  }

  /** A claim for the address of node `i` is still on its way between the two. */
  predicate Underway(net: Net, i: nat, j: nat)
    requires i < |net.nodes|
  {
    Msg(j, i, net.nodes[i].announced) in net.wire || Msg(i, j, net.nodes[i].announced) in net.wire
  }

  ghost predicate Contested(net: Net) {
    forall i, j :: 0 <= i < |net.nodes| && 0 <= j < |net.nodes| && i != j && Collide(net.nodes[i], net.nodes[j])
      ==> Underway(net, i, j)
  }

  ghost predicate Inv(net: Net) {
    Wired(net) && Contested(net)
  }

  lemma {:induction false} BroadcastReaches(n: nat, from: nat, address: int)
    ensures forall m :: m in Broadcast(n, from, address) <==>
              m.from == from && m.to < n && m.to != from && m.address == address % 0x100
  {
    if n > 0 { BroadcastReaches(n - 1, from, address); }
  }

  lemma Removed(wire: seq<Msg>, k: nat)
    requires k < |wire|
    ensures forall m :: m in wire ==> m == wire[k] || m in Remove(wire, k)
    ensures forall m :: m in Remove(wire, k) ==> m in wire
  {
    forall m | m in wire ensures m == wire[k] || m in Remove(wire, k) {
      var i :| 0 <= i < |wire| && wire[i] == m;
      assert i < k ==> wire[..k][i] == m;
      assert i > k ==> wire[k + 1..][i - k - 1] == m;
    }
  }

  lemma ActWired(nodes: seq<Ca>, wire: seq<Msg>, i: nat, ca: Ca, addresses: seq<int>)
    requires i < |nodes| && Wired(Net(nodes, wire)) && Wf(ca) && ca.name == nodes[i].name
    ensures Wired(Act(nodes, wire, i, ca, addresses))
  {
    hide Wf;
    if addresses != [] { BroadcastReaches(|nodes|, i, addresses[0]); }
  }

  /** Pairs that node `i` is not part of. */
  ghost predicate OthersContested(nodes: seq<Ca>, wire: seq<Msg>, i: nat) {
    forall j, k :: 0 <= j < |nodes| && 0 <= k < |nodes| && j != k && j != i && k != i && Collide(nodes[j], nodes[k])
      ==> Underway(Net(nodes, wire), j, k)
  }

  lemma RivalHears(a: Ca, b: Ca, address: int)
    requires (Collide(a, b) || Collide(b, a)) && (Claimed(a).None? || Claimed(a) == Some(address))
    ensures a.announced == b.announced == address == address % 0x100
  {
  }

  /** A node that announces what it claims from now on has a message on its way to every rival. */
  lemma AnnounceContested(nodes: seq<Ca>, wire: seq<Msg>, i: nat, ca: Ca, address: int)
    requires i < |nodes| && OthersContested(nodes, wire, i)
    requires Claimed(ca).None? || Claimed(ca) == Some(address)
    ensures Contested(Act(nodes, wire, i, ca, [address]))
  {
    hide Collide, Claimed, Broadcast;
    var after := Act(nodes, wire, i, ca, [address]);
    BroadcastReaches(|nodes|, i, address);
    forall j, k | 0 <= j < |nodes| && 0 <= k < |nodes| && j != k && Collide(after.nodes[j], after.nodes[k])
      ensures Underway(after, j, k)
    {
      if j == i || k == i {
        var rival := if j == i then k else j;
        RivalHears(ca, nodes[rival], address);
        assert Msg(rival, i, address) in Broadcast(|nodes|, i, address);
      } else {
        assert Underway(Net(nodes, wire), j, k);
      }
    }
  }

  /** A node that keeps its claim in silence relies on the messages there are. */
  lemma SilenceContested(nodes: seq<Ca>, wire: seq<Msg>, i: nat, ca: Ca)
    requires i < |nodes| && Contested(Net(nodes, wire))
    requires Claimed(ca) == Claimed(nodes[i]) && ca.announced == nodes[i].announced
    ensures Contested(Act(nodes, wire, i, ca, []))
  {
    var after := Act(nodes, wire, i, ca, []);
    assert wire + [] == wire;
    forall j, k | 0 <= j < |nodes| && 0 <= k < |nodes| && j != k && Collide(after.nodes[j], after.nodes[k])
      ensures Underway(after, j, k)
    {
      assert Collide(nodes[j], nodes[k]);
      assert Underway(Net(nodes, wire), j, k);
    }
  }

  lemma TickInv(net: Net, i: nat)
    requires Inv(net) && i < |net.nodes|
    ensures Inv(Apply(net, TickOf(i)))
  {
    hide Tick, Act;
    TickEffect(net.nodes[i]);
    var (ca, sent) := Tick(net.nodes[i]);
    ActWired(net.nodes, net.wire, i, ca, sent);
    if sent == [] { SilenceContested(net.nodes, net.wire, i, ca); }
    else {
      assert sent == [sent[0]];
      AnnounceContested(net.nodes, net.wire, i, ca, sent[0]);
    }
  }

  lemma ChangeInv(net: Net, i: nat, address: int)
    requires Inv(net) && i < |net.nodes|
    ensures Inv(Apply(net, Change(i, address)))
  {
    hide Begin, Act;
    BeginEffect(net.nodes[i], address);
    var (ca, sent, ok) := Begin(net.nodes[i], address);
    ActWired(net.nodes, net.wire, i, ca, sent);
    if ok { AnnounceContested(net.nodes, net.wire, i, ca, address); }
    else { SilenceContested(net.nodes, net.wire, i, ca); }
  }

  lemma RequestInv(net: Net, i: nat, dst: int)
    requires Inv(net) && i < |net.nodes|
    ensures Inv(Apply(net, Request(i, dst)))
  {
    hide Act;
    var ca, sent := net.nodes[i], Asked(net.nodes[i], dst);
    ActWired(net.nodes, net.wire, i, ca, sent);
    if sent == [] { SilenceContested(net.nodes, net.wire, i, ca); }
    else { AnnounceContested(net.nodes, net.wire, i, ca, ca.announced); }
  }

  /** What is left after a message to node `m.to` was taken off the bus. */
  lemma RemovedContested(net: Net, k: nat)
    requires Inv(net) && k < |net.wire|
    ensures var m, rest := net.wire[k], Remove(net.wire, k);
            && OthersContested(net.nodes, rest, m.to)
            && (Claimed(net.nodes[m.to]) != Some(m.address) ==> Contested(Net(net.nodes, rest)))
  {
    var m, rest := net.wire[k], Remove(net.wire, k);
    Removed(net.wire, k);
    forall i, j | 0 <= i < |net.nodes| && 0 <= j < |net.nodes| && i != j && Collide(net.nodes[i], net.nodes[j])
                  && ((i != m.to && j != m.to) || Claimed(net.nodes[m.to]) != Some(m.address))
      ensures Underway(Net(net.nodes, rest), i, j)
    {
      assert Underway(net, i, j);
    }
  }

  lemma DeliverInv(net: Net, k: nat)
    requires Inv(net) && k < |net.wire|
    ensures Inv(Apply(net, Deliver(k)))
  {
    hide Hear, Act, Remove, Contested;
    var m, rest := net.wire[k], Remove(net.wire, k);
    var node, contender := net.nodes[m.to], net.nodes[m.from].name;
    assert node.name != contender;
    HearEffect(node, m.address, contender);
    RemovedContested(net, k);
    Removed(net.wire, k);
    var (ca, sent) := Hear(node, m.address, contender);
    assert Wired(Net(net.nodes, rest));
    ActWired(net.nodes, rest, m.to, ca, sent);
    if sent == [] { SilenceContested(net.nodes, rest, m.to, ca); }
    else {
      assert sent == [sent[0]];
      AnnounceContested(net.nodes, rest, m.to, ca, sent[0]);
    }
  }

  lemma StartedInv(net: Net, i: nat, on: bool)
    requires Inv(net) && i < |net.nodes|
    ensures Inv(Apply(net, SetStarted(i, on)))
  {
    var ca := net.nodes[i].(started := on);
    ActWired(net.nodes, net.wire, i, ca, []);
    SilenceContested(net.nodes, net.wire, i, ca);
  }

  /** Every step, commanded changes and requests included, keeps the invariant. */
  lemma StepInv(net: Net, s: Step)
    requires Inv(net) && Enabled(net, s)
    ensures Inv(Apply(net, s))
  {
    hide Inv, Apply;
    match s {
      case TickOf(i) => TickInv(net, i);
      case Deliver(k) => DeliverInv(net, k);
      case Change(i, address) => ChangeInv(net, i, address);
      case Request(i, dst) => RequestInv(net, i, dst);
      case SetStarted(i, on) => StartedInv(net, i, on);
    }
  }

  // ---- whole runs ----

  ghost predicate Runs(net: Net, steps: seq<Step>)
    requires Inv(net)
    decreases |steps|
  {
    steps == [] || (Enabled(net, steps[0]) && (StepInv(net, steps[0]); Runs(Apply(net, steps[0]), steps[1..])))
  }

  ghost function Final(net: Net, steps: seq<Step>): Net
    requires Inv(net) && Runs(net, steps)
    decreases |steps|
  {
    if steps == [] then net else (StepInv(net, steps[0]); Final(Apply(net, steps[0]), steps[1..]))
  }

  lemma {:induction false} RunInv(net: Net, steps: seq<Step>)
    requires Inv(net) && Runs(net, steps)
    ensures Inv(Final(net, steps)) && |Final(net, steps).nodes| == |net.nodes|
    decreases |steps|
  {
    if steps != [] {
      StepInv(net, steps[0]);
      RunInv(Apply(net, steps[0]), steps[1..]);
    }
  }

  /** Nodes that have not claimed anything yet, and a quiet bus. */
  ghost predicate Fresh(net: Net): (r: bool)
    ensures r ==> Inv(net)
  {
    && Wired(net) && net.wire == []
    && forall i :: 0 <= i < |net.nodes| ==> net.nodes[i].state.NoClaim?
  }

  /**
   Address uniqueness over every run: while two nodes claim the same address, a claim
   for it is still unprocessed between them.
   */
  lemma ClashesAreContested(net: Net, steps: seq<Step>, i: nat, j: nat)
    requires Fresh(net) && Runs(net, steps)
    requires i < |net.nodes| && j < |net.nodes| && i != j
    ensures var after := Final(net, steps);
            && |after.nodes| == |net.nodes|
            && (Collide(after.nodes[i], after.nodes[j]) ==> Underway(after, i, j))
  {
    RunInv(net, steps);
  }

  /** With no message in flight no two CAs in NORMAL or WAIT_VETO have the same address. */
  lemma QuietBusIsUnique(net: Net, steps: seq<Step>)
    requires Fresh(net) && Runs(net, steps)
    ensures var after := Final(net, steps);
            after.wire == [] ==>
              forall i, j :: 0 <= i < |after.nodes| && 0 <= j < |after.nodes| && i != j
                             ==> !Collide(after.nodes[i], after.nodes[j])
  {
    hide Underway;
    var after := Final(net, steps);
    RunInv(net, steps);
    if after.wire == [] {
      forall i, j | 0 <= i < |after.nodes| && 0 <= j < |after.nodes| && i != j
        ensures !Collide(after.nodes[i], after.nodes[j])
      {
        ClashesAreContested(net, steps, i, j);
        NotUnderway(after, i, j);
      }
    }
  }

  lemma NotUnderway(net: Net, i: nat, j: nat)
    requires i < |net.nodes| && net.wire == []
    ensures !Underway(net, i, j)
  {
  }

  /**
   Why the theorem speaks of addresses that fit a byte: a rival's announcement of the
   very address a CA claims is noticed if and only if it does.
   */
  lemma NoticedIffOneByte(ca: Ca, contender: int)
    requires Wf(ca) && Claimed(ca).Some? && Claimed(ca).value >= 0 && ca.name != contender
    ensures Hear(ca, Claimed(ca).value % 0x100, contender).1 != [] <==> Claimed(ca).value < 0x100
  {
    HearEffect(ca, Claimed(ca).value % 0x100, contender);
  }
}
