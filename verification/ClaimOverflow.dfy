/**
 Where address claiming stops working: a CA that gives up address 255 moves on to 256,
 announces it cut to the byte 0, and from then on hears no rival. Two CAs can get
 there, and stay there together, exactly if the preferred addresses are too high for
 the number of CAs on the bus.
 */
module ClaimOverflow {
  import opened Common
  import opened Wire
  import opened Claim
  import opened ClaimNetwork
  import opened ClaimConvergence
  import N = Name

  /** The lowest NAME with the arbitrary address bit; those behind it differ in the bits below the reserved one. */
  const CAPABLE := 0x8000_0000_0000_0000

  /** How many NAMEs there are from `CAPABLE` on before the reserved bit is set. */
  const NAMES := 0x1_0000_0000_0000

  /** A CA whose NAME is one a NAME object can have, and which is as capable as that NAME says. */
  predicate Named(ca: Ca) {
    var f := N.FieldsOf(ca.name);
    N.Value(f) == ca.name && N.Fits(f) && f.reserved == 0 && ca.arbitrary == (f.arbitrary == 1)
  }

  lemma CapableName(i: nat)
    requires i < NAMES
    ensures var f := N.FieldsOf(CAPABLE + i);
            N.Value(f) == CAPABLE + i && N.Fits(f) && f.reserved == 0 && f.arbitrary == 1
  {
    hide N.Value;
    N.ValueOfFields(CAPABLE + i);
    DivUnique(CAPABLE + i, CAPABLE, 1, i);
    DivUnique(CAPABLE + i, NAMES, 0x8000, i);
  }

  // ---- runs put together ----

  /** Some run without commanded changes leads from one state of the network to another. */
  ghost predicate Reaches(a: Net, b: Net)
    requires Inv(a)
  {
    exists steps :: Runs(a, steps) && Uncommanded(steps) && Final(a, steps) == b
  }

  lemma {:induction false} Concat(net: Net, first: seq<Step>, second: seq<Step>)
    requires Inv(net) && Runs(net, first) && Inv(Final(net, first)) && Runs(Final(net, first), second)
    ensures Runs(net, first + second) && Final(net, first + second) == Final(Final(net, first), second)
    decreases |first|
  {
    hide Wired, Contested, Apply, Enabled;
    if first == [] {
      assert first + second == second;
    } else {
      var s := first[0];
      StepInv(net, s);
      Concat(Apply(net, s), first[1..], second);
      assert (first + second)[1..] == first[1..] + second;
    }
  }

  lemma ReachesOn(a: Net, b: Net, c: Net)
    requires Inv(a) && Reaches(a, b) && Inv(b) && Reaches(b, c)
    ensures Reaches(a, c)
  {
    hide Inv, Runs, Final;
    var first :| Runs(a, first) && Uncommanded(first) && Final(a, first) == b;
    var second :| Runs(b, second) && Uncommanded(second) && Final(b, second) == c;
    Concat(a, first, second);
    assert Uncommanded(first + second);
  }

  lemma ReachesSelf(net: Net)
    requires Inv(net)
    ensures Reaches(net, net)
  {
    assert Runs(net, []) && Uncommanded([]) && Final(net, []) == net;
  }

  lemma ReachesNext(net: Net, s: Step)
    requires Inv(net) && Enabled(net, s) && !s.Change?
    ensures Inv(Apply(net, s)) && Reaches(net, Apply(net, s))
  {
    hide Wired, Contested, Apply, Enabled;
    StepInv(net, s);
    var rest := [s][1..];
    assert Runs(Apply(net, s), rest) && Final(Apply(net, s), rest) == Apply(net, s);
    assert Runs(net, [s]) && Uncommanded([s]) && Final(net, [s]) == Apply(net, s);
  }

  // ---- broadcasts that nobody or one node reacts to ----

  /** Messages about addresses their receivers do not claim are taken off the bus and change nothing. */
  lemma {:induction false} Ignored(nodes: seq<Ca>, wire: seq<Msg>, more: seq<Msg>)
    requires Inv(Net(nodes, wire + more))
    requires forall m :: m in wire ==> m.to < |nodes| && Claimed(nodes[m.to]) != Some(m.address)
    ensures Inv(Net(nodes, more)) && Reaches(Net(nodes, wire + more), Net(nodes, more))
    decreases |wire|
  {
    hide Contested, Reaches, Hear, Wf, Claimed;
    var net := Net(nodes, wire + more);
    if wire == [] {
      assert wire + more == more;
      ReachesSelf(net);
    } else {
      var m := net.wire[0];
      assert m == wire[0] && m in wire && m in net.wire;
      HearEffect(nodes[m.to], m.address, nodes[m.from].name);
      assert Remove(net.wire, 0) + [] == wire[1..] + more;
      assert nodes[m.to := nodes[m.to]] == nodes;
      assert Apply(net, Deliver(0)) == Net(nodes, wire[1..] + more);
      ReachesNext(net, Deliver(0));
      Ignored(nodes, wire[1..], more);
      ReachesOn(net, Net(nodes, wire[1..] + more), Net(nodes, more));
    }
  }

  lemma {:induction false} BroadcastOnce(n: nat, from: nat, address: int)
    ensures var wire := Broadcast(n, from, address);
            && (forall m :: m in wire ==> m.to < n)
            && (forall x, y :: 0 <= x < y < |wire| ==> wire[x].to < wire[y].to)
  {
    if n > 0 {
      BroadcastOnce(n - 1, from, address);
      var wire, before := Broadcast(n, from, address), Broadcast(n - 1, from, address);
      forall x, y | 0 <= x < y < |wire| ensures wire[x].to < wire[y].to {
        assert wire[x] == before[x] && before[x] in before;
        assert y < |before| ==> wire[y] == before[y];
      }
    }
  }

  /** A message off the bus, and the answer to it on. */
  lemma Answered(nodes: seq<Ca>, wire: seq<Msg>, k: nat, ca: Ca, sent: int)
    requires Inv(Net(nodes, wire)) && k < |wire|
    requires var m := wire[k]; m.to < |nodes| && m.from < |nodes|
                               && Hear(nodes[m.to], m.address, nodes[m.from].name) == (ca, [sent])
    ensures var i := wire[k].to; var after := Net(nodes[i := ca], Remove(wire, k) + Broadcast(|nodes|, i, sent));
            Inv(after) && Reaches(Net(nodes, wire), after)
  {
    hide Contested, Reaches, Hear, Wf, Broadcast, Remove;
    ReachesNext(Net(nodes, wire), Deliver(k));
  }

  /** A broadcast has one message for each other node, and a node one place in it. */
  lemma PlaceOf(n: nat, from: nat, address: int, i: nat) returns (k: nat)
    requires i < n && i != from
    ensures var wire := Broadcast(n, from, address);
            && k < |wire| && wire[k] == Msg(i, from, address % 0x100)
            && forall m :: m in Remove(wire, k) ==>
                 m.to != i && m.to != from && m.to < n && m.from == from && m.address == address % 0x100
  {
    hide Broadcast;
    var wire := Broadcast(n, from, address);
    BroadcastReaches(n, from, address);
    BroadcastOnce(n, from, address);
    assert Msg(i, from, address % 0x100) in wire;
    k :| 0 <= k < |wire| && wire[k] == Msg(i, from, address % 0x100);
    forall m | m in Remove(wire, k)
      ensures m.to != i && m.to != from && m.to < n && m.from == from && m.address == address % 0x100
    {
      var x :| 0 <= x < |Remove(wire, k)| && Remove(wire, k)[x] == m;
      var y := if x < k then x else x + 1;
      assert wire[y] == m && m in wire;
    }
  }

  /**
   The one node that claims the address announced answers first, the other messages of
   the broadcast are ignored.
   */
  lemma OneReacts(nodes: seq<Ca>, from: nat, address: int, i: nat, ca: Ca, sent: int)
    requires var net := Net(nodes, Broadcast(|nodes|, from, address)); Inv(net)
    requires from < |nodes| && i < |nodes| && i != from
    requires Hear(nodes[i], address % 0x100, nodes[from].name) == (ca, [sent])
    requires forall j :: 0 <= j < |nodes| && j != i && j != from ==> Claimed(nodes[j]) != Some(address % 0x100)
    ensures var after := Net(nodes[i := ca], Broadcast(|nodes|, i, sent));
            Inv(after) && Reaches(Net(nodes, Broadcast(|nodes|, from, address)), after)
  {
    hide Inv, Reaches, Hear, Claimed, Broadcast, Remove;
    var wire := Broadcast(|nodes|, from, address);
    var k := PlaceOf(|nodes|, from, address, i);
    Answered(nodes, wire, k, ca, sent);
    var next, rest, answer := nodes[i := ca], Remove(wire, k), Broadcast(|nodes|, i, sent);
    forall o | o in rest ensures o.to < |next| && Claimed(next[o.to]) != Some(o.address) {
      assert next[o.to] == nodes[o.to];
    }
    Ignored(next, rest, answer);
    ReachesOn(Net(nodes, wire), Net(next, rest + answer), Net(next, answer));
  }

  lemma NobodyReacts(nodes: seq<Ca>, from: nat, address: int)
    requires Inv(Net(nodes, Broadcast(|nodes|, from, address))) && from < |nodes|
    requires forall j :: 0 <= j < |nodes| && j != from ==> Claimed(nodes[j]) != Some(address % 0x100)
    ensures Inv(Net(nodes, [])) && Reaches(Net(nodes, Broadcast(|nodes|, from, address)), Net(nodes, []))
  {
    hide Inv, Reaches, Claimed, Broadcast;
    var wire := Broadcast(|nodes|, from, address);
    BroadcastReaches(|nodes|, from, address);
    assert wire + [] == wire;
    Ignored(nodes, wire, []);
  }

  // ---- a bus where everybody prefers the same address ----

  /**
   The address of node `i` while node `k` pushes its way in: the nodes up to `j` have
   moved up, those above have not.
   */
  function Spot(p: int, k: nat, j: nat, i: nat): int {
    Min(p + i - k - (if i <= j then 0 else 1), 256)
  }

  ghost predicate Stands(ca: Ca, i: nat, p: int, k: nat, j: nat) {
    && ca.name == CAPABLE + i && ca.arbitrary && ca.started && ca.connected && ca.preferred == Some(p) && Wf(ca)
    && (if i < k then ca.state.NoClaim? else Claimed(ca) == Some(Spot(p, k, j, i)))
  }

  /** The nodes from `k` on stand one above the other; those below have not claimed yet. */
  ghost predicate Tower(nodes: seq<Ca>, p: int, k: nat, j: nat) {
    Claimable(p) && forall i :: 0 <= i < |nodes| ==> Stands(nodes[i], i, p, k, j)
  }

  /** A lower NAME arrives at the address of node `j + 1`, which moves up. */
  lemma Displaced(nodes: seq<Ca>, p: int, k: nat, j: nat) returns (ca: Ca)
    requires Tower(nodes, p, k, j) && k <= j && j + 1 < |nodes| && p + j - k <= 255
    ensures Hear(nodes[j + 1], p + j - k, nodes[j].name) == (ca, [p + j + 1 - k])
    ensures Tower(nodes[j + 1 := ca], p, k, j + 1)
  {
    assert Stands(nodes[j], j, p, k, j) && Stands(nodes[j + 1], j + 1, p, k, j);
    ca := Hear(nodes[j + 1], p + j - k, nodes[j].name).0;
    var next := nodes[j + 1 := ca];
    forall i | 0 <= i < |next| ensures Stands(next[i], i, p, k, j + 1) {
      assert Stands(nodes[i], i, p, k, j);
    }
  }

  /** Node `j` is alone at its address, but for the one above it. */
  lemma AloneBut(nodes: seq<Ca>, p: int, k: nat, j: nat, i: nat)
    requires Tower(nodes, p, k, j) && k <= j < |nodes| && i < |nodes| && i != j && i != j + 1 && p + j - k <= 255
    ensures Claimed(nodes[i]) != Some(p + j - k)
  {
    assert Stands(nodes[i], i, p, k, j);
  }

  /** The byte 0 that stands for 256 concerns only a node at address 0, the lowest one. */
  lemma NobodyAtZero(nodes: seq<Ca>, p: int, k: nat, j: nat, i: nat)
    requires Tower(nodes, p, k, j) && k < j < |nodes| && i < |nodes| && (i != k || p != 0) && p + j - k == 256
    ensures Claimed(nodes[i]) != Some(0)
  {
    assert Stands(nodes[i], i, p, k, j);
  }

  /** From node `j` on the others move up one after the other, until one is past the last byte. */
  lemma {:induction false} Cascade(nodes: seq<Ca>, p: int, k: nat, j: nat) returns (after: seq<Ca>)
    requires Tower(nodes, p, k, j) && k <= j < |nodes| && p + j - k <= 256
    requires Inv(Net(nodes, Broadcast(|nodes|, j, p + j - k)))
    ensures |after| == |nodes| && Inv(Net(after, [])) && Tower(after, p, k, |nodes|)
    ensures Reaches(Net(nodes, Broadcast(|nodes|, j, p + j - k)), Net(after, []))
    decreases |nodes| - j
  {
    hide Inv, Reaches, Hear, Tower, Broadcast, Claimed;
    var a := p + j - k;
    KnownAddress(nodes, p, k, j);
    if a <= 255 && j + 1 < |nodes| {
      var ca := Displaced(nodes, p, k, j);
      forall i | 0 <= i < |nodes| && i != j && i != j + 1 ensures Claimed(nodes[i]) != Some(a) {
        AloneBut(nodes, p, k, j, i);
      }
      OneReacts(nodes, j, a, j + 1, ca, a + 1);
      after := Cascade(nodes[j + 1 := ca], p, k, j + 1);
      ReachesOn(Net(nodes, Broadcast(|nodes|, j, a)), Net(nodes[j + 1 := ca], Broadcast(|nodes|, j + 1, a + 1)),
                Net(after, []));
    } else {
      after := nodes;
      TowerDone(nodes, p, k, j);
      if a <= 255 { LastSettles(nodes, p, k, j); } else { PastTheLastByte(nodes, p, k, j); }
    }
  }

  lemma KnownAddress(nodes: seq<Ca>, p: int, k: nat, j: nat)
    requires Tower(nodes, p, k, j)
    ensures Claimable(p)
  {
  }

  /** Whoever is still to move up cannot: there is nobody, or they are all at 256. */
  lemma TowerDone(nodes: seq<Ca>, p: int, k: nat, j: nat)
    requires Tower(nodes, p, k, j) && k <= j && (j + 1 == |nodes| || p + j - k == 256)
    ensures Tower(nodes, p, k, |nodes|)
  {
    forall i | 0 <= i < |nodes| ensures Stands(nodes[i], i, p, k, |nodes|) {
      assert Stands(nodes[i], i, p, k, j);
    }
  }

  lemma LastSettles(nodes: seq<Ca>, p: int, k: nat, j: nat)
    requires Tower(nodes, p, k, j) && k <= j && j + 1 == |nodes| && p + j - k <= 255
    requires Inv(Net(nodes, Broadcast(|nodes|, j, p + j - k)))
    ensures Inv(Net(nodes, [])) && Reaches(Net(nodes, Broadcast(|nodes|, j, p + j - k)), Net(nodes, []))
  {
    hide Inv, Reaches, Tower, Broadcast, Claimed;
    forall i | 0 <= i < |nodes| && i != j ensures Claimed(nodes[i]) != Some(p + j - k) {
      AloneBut(nodes, p, k, j, i);
    }
    KnownAddress(nodes, p, k, j);
    NobodyReacts(nodes, j, p + j - k);
  }

  /** A node at 256 announces 0: at most a node at address 0 defends itself, in vain. */
  lemma PastTheLastByte(nodes: seq<Ca>, p: int, k: nat, j: nat)
    requires Tower(nodes, p, k, j) && k < j < |nodes| && p + j - k == 256
    requires Inv(Net(nodes, Broadcast(|nodes|, j, 256)))
    ensures Inv(Net(nodes, [])) && Reaches(Net(nodes, Broadcast(|nodes|, j, 256)), Net(nodes, []))
  {
    hide Inv, Reaches, Broadcast, Claimed, Hear, Tower;
    forall i | 0 <= i < |nodes| && (i != k || p != 0) ensures Claimed(nodes[i]) != Some(0) {
      NobodyAtZero(nodes, p, k, j, i);
    }
    if p == 0 {
      Defends(nodes, k, j);
      OneReacts(nodes, j, 256, k, nodes[k], 0);
      assert nodes[k := nodes[k]] == nodes;
      NobodyReacts(nodes, k, 0);
      ReachesOn(Net(nodes, Broadcast(|nodes|, j, 256)), Net(nodes, Broadcast(|nodes|, k, 0)), Net(nodes, []));
    } else {
      NobodyReacts(nodes, j, 256);
    }
  }

  lemma Defends(nodes: seq<Ca>, k: nat, j: nat)
    requires Tower(nodes, 0, k, j) && k < j < |nodes|
    ensures Hear(nodes[k], 0, nodes[j].name) == (nodes[k], [0])
  {
    assert Stands(nodes[k], k, 0, k, j) && Stands(nodes[j], j, 0, k, j);
  }

  /** Node `k - 1` makes its first claim and pushes the others up. */
  lemma Enters(nodes: seq<Ca>, p: int, k: nat) returns (after: seq<Ca>)
    requires Tower(nodes, p, k, |nodes|) && 0 < k <= |nodes| && Inv(Net(nodes, []))
    ensures |after| == |nodes| && Inv(Net(after, [])) && Tower(after, p, k - 1, |nodes|)
    ensures Reaches(Net(nodes, []), Net(after, []))
  {
    hide Inv, Reaches, Broadcast;
    var i := k - 1;
    assert Stands(nodes[i], i, p, k, |nodes|);
    var (ca, sent) := Tick(nodes[i]);
    var next := nodes[i := ca];
    assert sent == [p] && [] + Broadcast(|nodes|, i, p) == Broadcast(|nodes|, i, p);
    assert Wired(Net(nodes, [])) by { assert Inv(Net(nodes, [])); WiredFrom(Net(nodes, [])); }
    assert Apply(Net(nodes, []), TickOf(i)) == Net(next, Broadcast(|nodes|, i, p));
    ReachesNext(Net(nodes, []), TickOf(i));
    forall l | 0 <= l < |nodes| ensures Stands(next[l], l, p, i, i) {
      assert Stands(nodes[l], l, p, k, |nodes|);
    }
    after := Cascade(next, p, i, i);
    ReachesOn(Net(nodes, []), Net(next, Broadcast(|nodes|, i, p)), Net(after, []));
  }

  lemma WiredFrom(net: Net)
    requires Inv(net)
    ensures Wired(net)
  {
  }

  /** One node after the other enters, the highest NAME first. */
  lemma {:induction false} AllEnter(nodes: seq<Ca>, p: int, k: nat) returns (after: seq<Ca>)
    requires Tower(nodes, p, k, |nodes|) && k <= |nodes| && Inv(Net(nodes, []))
    ensures |after| == |nodes| && Inv(Net(after, [])) && Tower(after, p, 0, |nodes|)
    ensures Reaches(Net(nodes, []), Net(after, []))
    decreases k
  {
    hide Inv, Reaches, Tower;
    if k == 0 {
      after := nodes;
      ReachesSelf(Net(nodes, []));
    } else {
      var next := Enters(nodes, p, k);
      after := AllEnter(next, p, k - 1);
      ReachesOn(Net(nodes, []), Net(next, []), Net(after, []));
    }
  }

  /** `n` started CAs with NAMEs in order, arbitrary address capable, all of which prefer address `p`. */
  function SamePreference(n: nat, p: int): Net {
    Net(seq(n, i => Ca(CAPABLE + i, true, Some(p), Some(NULL), NULL, NoClaim, true, true)), [])
  }

  /** With nobody to object a node enters NORMAL. */
  lemma Confirmed(nodes: seq<Ca>, i: nat) returns (ca: Ca)
    requires i < |nodes| && Inv(Net(nodes, [])) && Claimed(nodes[i]).Some? && nodes[i].started && nodes[i].connected
    ensures Wf(ca) && ca.state.Normal? && Claimed(ca) == Claimed(nodes[i])
    ensures Inv(Net(nodes[i := ca], [])) && Reaches(Net(nodes, []), Net(nodes[i := ca], []))
  {
    hide Contested, Reaches;
    ca := Tick(nodes[i]).0;
    assert [] + Broadcasts(|nodes|, i, []) == [];
    assert Apply(Net(nodes, []), TickOf(i)) == Net(nodes[i := ca], []);
    ReachesNext(Net(nodes, []), TickOf(i));
  }

  /** The failing run: the two highest NAMEs end up in NORMAL at 256, on a bus with no message left. */
  lemma TwoAt256(n: nat, p: int) returns (steps: seq<Step>)
    requires Claimable(p) && p + n - 1 > 256 && n <= NAMES
    ensures var net := SamePreference(n, p);
            && Fresh(net) && (forall i :: 0 <= i < n ==> Named(net.nodes[i])) && Runs(net, steps) && Uncommanded(steps)
            && var after := Final(net, steps);
               && after.wire == [] && |after.nodes| == n && n >= 2
               && after.nodes[n - 1].state.Normal? && after.nodes[n - 2].state.Normal?
               && after.nodes[n - 1].address == after.nodes[n - 2].address == Some(256)
               && Claimed(after.nodes[n - 1]) == Claimed(after.nodes[n - 2]) == Some(256)
  {
    hide Inv, Reaches, Runs, Final, Named;
    var net := SamePreference(n, p);
    Prepared(n, p);
    var nodes := AllEnter(net.nodes, p, n);
    TopTwo(nodes, p);
    var last := Confirmed(nodes, n - 1);
    var more := nodes[n - 1 := last];
    var other := Confirmed(more, n - 2);
    var after := more[n - 2 := other];
    ReachesOn(net, Net(nodes, []), Net(more, []));
    ReachesOn(net, Net(more, []), Net(after, []));
    steps := RunTo(net, Net(after, []));
    ConfirmedAt(last, 256);
    ConfirmedAt(other, 256);
    RunInv(net, steps);
  }

  lemma Prepared(n: nat, p: int)
    requires Claimable(p) && n <= NAMES
    ensures var net := SamePreference(n, p);
            (forall i :: 0 <= i < n ==> Named(net.nodes[i])) && Fresh(net) && Inv(net) && Tower(net.nodes, p, n, n)
                && net == Net(net.nodes, []) && |net.nodes| == n
  {
    hide N.Value, N.FieldsOf, N.Fits;
    forall i | 0 <= i < n ensures Named(SamePreference(n, p).nodes[i]) {
      CapableName(i);
    }
  }

  lemma TopTwo(nodes: seq<Ca>, p: int)
    requires Tower(nodes, p, 0, |nodes|) && p + |nodes| - 1 > 256
    ensures |nodes| >= 2
    ensures forall i :: |nodes| - 2 <= i < |nodes| ==>
              Claimed(nodes[i]) == Some(256) && nodes[i].started && nodes[i].connected
  {
    forall i | |nodes| - 2 <= i < |nodes|
      ensures Claimed(nodes[i]) == Some(256) && nodes[i].started && nodes[i].connected
    {
      assert Stands(nodes[i], i, p, 0, |nodes|);
    }
  }

  lemma RunTo(a: Net, b: Net) returns (steps: seq<Step>)
    requires Inv(a) && Reaches(a, b)
    ensures Runs(a, steps) && Uncommanded(steps) && Final(a, steps) == b
  {
    steps :| Runs(a, steps) && Uncommanded(steps) && Final(a, steps) == b;
  }

  lemma ConfirmedAt(ca: Ca, a: int)
    requires Wf(ca) && ca.state.Normal? && Claimed(ca) == Some(a)
    ensures ca.address == Some(a)
  {
  }

  // ---- the exact condition ----

  ghost predicate Unique(nodes: seq<Ca>) {
    forall i, j :: 0 <= i < |nodes| && 0 <= j < |nodes| && i != j && Claimed(nodes[i]).Some?
      ==> Claimed(nodes[i]) != Claimed(nodes[j])
  }

  /** The run starts with `n` CAs with proper NAMEs that have not claimed yet, none preferring an address above `p`. */
  ghost predicate Starts(net: Net, n: nat, p: int): (r: bool)
    ensures r ==> Inv(net)
  {
    && Fresh(net) && |net.nodes| == n && (forall i :: 0 <= i < n ==> Named(net.nodes[i]))
    && forall i :: 0 <= i < n && net.nodes[i].preferred.Some? ==> net.nodes[i].preferred.value <= p
  }

  /** Every uncommanded run that ends on a quiet bus leaves every address to one CA. */
  ghost predicate AlwaysUnique(n: nat, p: int) {
    forall net, steps ::
      Starts(net, n, p) && Runs(net, steps) && Uncommanded(steps) && Final(net, steps).wire == []
      ==> Unique(Final(net, steps).nodes)
  }

  /** Claiming is safe exactly if the highest preferred address and the number of CAs stay below 257 together. */
  lemma UniqueIff(n: nat, p: int)
    requires Claimable(p) && n <= NAMES
    ensures AlwaysUnique(n, p) <==> p + n - 1 <= 256
  {
    hide Runs, Final, Fresh, Named;
    if p + n - 1 <= 256 {
      forall net, steps | Starts(net, n, p) && Runs(net, steps) && Uncommanded(steps) && Final(net, steps).wire == []
        ensures Unique(Final(net, steps).nodes)
      {
        RunInv(net, steps);
        forall i, j | 0 <= i < n && 0 <= j < n && i != j && Claimed(Final(net, steps).nodes[i]).Some?
          ensures Claimed(Final(net, steps).nodes[i]) != Claimed(Final(net, steps).nodes[j])
        {
          SettledIsUnique(net, steps, i, j);
        }
      }
    } else {
      var steps := TwoAt256(n, p);
      var net := SamePreference(n, p);
      var after := Final(net, steps);
      assert !Unique(after.nodes) by { assert Claimed(after.nodes[n - 1]) == Claimed(after.nodes[n - 2]); }
      assert Starts(net, n, p);
    }
  }
}
