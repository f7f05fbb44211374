/**
 Address claiming of one controller application (SAE J1939-81 section 4): what each
 handler makes of its state and which Address Claimed messages it sends.
 */
module Claim {
  import opened Common
  import opened Wire
  import N = Name

  const PF_ADDRESS_CLAIM := 238
  const PGN_ADDRESS_CLAIM := 0xEE00

  datatype State = NoClaim | WaitVeto | Normal | CannotClaim

  /** The NAME is its numeric value; `address` is None after a lost single address. */
  datatype Ca = Ca(
    name: int, arbitrary: bool, preferred: Option<int>, address: Option<int>, announced: int, state: State,
    started: bool, connected: bool)

  predicate Claimable(address: int) {
    0 <= address <= 253
  }

  /** 128..247 wait for a veto, the others are used at once. */
  predicate NeedsVeto(address: int) {
    127 < address < 248
  }

  /** What every handler keeps: an address in use is the one announced. */
  predicate Wf(ca: Ca) {
    && (ca.state.Normal? ==> ca.address == Some(ca.announced))
    && (ca.preferred.Some? ==> Claimable(ca.preferred.value))
  }

  /** The address a CA contends for or owns. */
  function Claimed(ca: Ca): Option<int> {
    if ca.state.Normal? || ca.state.WaitVeto? then Some(ca.announced) else None
  }

  /** `_process_claim_async`: the CA afterwards and the addresses it sends claims for. */
  function Tick(ca: Ca): (r: (Ca, seq<int>)) {
    if !ca.connected || !ca.started then (ca, [])
    else match ca.state
      case NoClaim =>
        if ca.preferred.None? then (ca, [])
        else
          var a := ca.preferred.value;
          if NeedsVeto(a) then (ca.(announced := a, state := WaitVeto), [a])
          else (ca.(announced := a, address := Some(a), state := Normal), [a])
      case WaitVeto => (ca.(address := Some(ca.announced), state := Normal), [])
      case Normal => (ca, [])
      case CannotClaim => (ca, [])
  }

  /** The claim just received concerns the address of this CA. */
  predicate Conflict(ca: Ca, src: int) {
    (ca.state.Normal? && ca.address == Some(src)) || (ca.state.WaitVeto? && src == ca.announced)
  }

  /** `_process_addressclaim` with the NAME value of the contender. */
  function Hear(ca: Ca, src: int, contender: int): (r: (Ca, seq<int>)) {
    if !Conflict(ca, src) || ca.name == contender then (ca, [])
    else if ca.name > contender then
      if !ca.arbitrary then (ca.(state := CannotClaim, address := None), [NULL])
      else (ca.(address := Some(NULL), announced := ca.announced + 1, state := WaitVeto), [ca.announced + 1])
    else (ca, [if ca.state.Normal? && ca.address.Some? then ca.address.value else ca.announced])
  }

  /** `_begin_address_claim`, commanded or by the application. */
  function Begin(ca: Ca, address: int): (r: (Ca, seq<int>, bool)) {
    if !Claimable(address) || !ca.connected then (ca, [], false)
    else
      var moved := ca.(preferred := Some(address), announced := address);
      if NeedsVeto(address) && ca.started then (moved.(state := WaitVeto), [address], true)
      else (moved.(address := Some(address), state := Normal), [address], true)
  }

  /** A request for Address Claimed. */
  function Asked(ca: Ca, dst: int): seq<int> {
    if ca.state.Normal? && ca.address.Some? && (ca.address.value == dst || dst == GLOBAL)
    then [ca.address.value] else []
  }

  /** The Address Claimed message; the address is cut to a byte. */
  function ClaimFrame(name: int, address: int): Frame {
    Frame(true, MakeHeader(6, 0, PF_ADDRESS_CLAIM, GLOBAL, address), Bytes(name, 8))
  }

  function ClaimFrames(name: int, addresses: seq<int>): seq<Frame> {
    if addresses == [] then [] else [ClaimFrame(name, addresses[0])] + ClaimFrames(name, addresses[1..])
  }

  /** The NAME value read from a claim. */
  function Contender(data: seq<int>): int {
    N.Value(N.FieldsOf(LittleEndian(data)).(reserved := 0))
  }

  /** A claim tells the receiver exactly the NAME and the address of its sender. */
  lemma ClaimIsUnderstood(f: N.Fields, address: int)
    requires N.Fits(f) && f.reserved == 0
    ensures var frame := ClaimFrame(N.Value(f), address);
            && Contender(frame.data) == N.Value(f) && |frame.data| == 8
            && frame.extended && frame.header == Header(0, 238, 255, address % 0x100, 6)
  {
    hide N.Value, N.FieldsOf, Bytes, LittleEndian;
    N.FieldsOfValue(f);
    N.BytesRoundTrip(N.Value(f));
  }

  // ---- what each handler keeps ----

  lemma TickEffect(ca: Ca)
    requires Wf(ca)
    ensures var (after, sent) := Tick(ca);
            && Wf(after) && after.name == ca.name && after.arbitrary == ca.arbitrary && |sent| <= 1
            && (sent == [] ==> Claimed(after) == Claimed(ca) && after.announced == ca.announced)
            && (sent != [] ==> ca.state.NoClaim? && Claimed(after) == Some(sent[0]))
  {
  }

  /**
   Silence means the claim was for another address; otherwise the CA announces the
   address it now claims, or nothing more than that it cannot claim.
   */
  lemma HearEffect(ca: Ca, src: int, contender: int)
    requires Wf(ca) && ca.name != contender
    ensures var (after, sent) := Hear(ca, src, contender);
            && Wf(after) && after.name == ca.name && after.arbitrary == ca.arbitrary && |sent| <= 1
            && (sent == [] <==> Claimed(ca) != Some(src))
            && (sent == [] ==> after == ca)
            && (sent != [] ==> Claimed(after).None? || Claimed(after) == Some(sent[0]))
            && (sent != [] && ca.name < contender ==> after == ca)
            && (sent != [] && ca.name > contender ==> Claimed(after) != Some(src))
  {
  }

  lemma BeginEffect(ca: Ca, address: int)
    requires Wf(ca)
    ensures var (after, sent, ok) := Begin(ca, address);
            && Wf(after) && after.name == ca.name && after.arbitrary == ca.arbitrary
            && (ok <==> 0 <= address <= 253 && ca.connected)
            && (if ok then sent == [address] && Claimed(after) == Some(address) else sent == [] && after == ca)
  {
  }

  /** A subscriber of requests is called; subscribers are known by a number. */
  datatype Call = Call(subscriber: int, src: int, dst: int, pgn: int)

  /** The subscribers in the order in which they are called. */
  function Calls(subscribers: seq<int>, src: int, dst: int, pgn: int): (r: seq<Call>)
    ensures |r| == |subscribers| && forall i :: 0 <= i < |r| ==> r[i] == Call(subscribers[i], src, dst, pgn)
  {
    if subscribers == [] then []
    else Calls(subscribers[..|subscribers| - 1], src, dst, pgn) + [Call(subscribers[|subscribers| - 1], src, dst, pgn)]
  }

  // ---- what becomes of a CA ----

  /** An address of 128..247 has to wait for objections, any other is in use at once. */
  ghost predicate Takes(ca: Ca, address: int, atOnce: bool) {
    && ca.announced == address
    && (if 128 <= address <= 247 && !atOnce then ca.state.WaitVeto?
        else ca.state.Normal? && ca.address == Some(address))
  }

  /**
   The timer: a started CA with an ECU claims the address it prefers, if it has not
   claimed any, and takes the address it waits for, if nobody objected. Nothing else
   happens, and nothing happens to any other CA.
   */
  lemma TickBranches(ca: Ca)
    requires Wf(ca)
    ensures var (after, sent) := Tick(ca);
            if ca.connected && ca.started && ca.state.NoClaim? && ca.preferred.Some? then
              && sent == [ca.preferred.value] && Takes(after, ca.preferred.value, false)
              && after == ca.(announced := after.announced, address := after.address, state := after.state)
              && (after.state.WaitVeto? ==> after.address == ca.address)
            else if ca.connected && ca.started && ca.state.WaitVeto? then
              sent == [] && after == ca.(state := Normal, address := Some(ca.announced))
            else (after, sent) == (ca, [])
  {
  }

  /**
   A CA that loses its address to a lower NAME: without the arbitrary address bit it is
   out and announces the null address; with it, it claims the next address and waits.
   */
  lemma LoserEffect(ca: Ca, contender: int)
    requires Wf(ca) && Claimed(ca).Some? && contender < ca.name
    ensures var (after, sent) := Hear(ca, ca.announced, contender);
            && after == ca.(state := after.state, address := after.address, announced := after.announced)
            && (if ca.arbitrary then
                  && after.state.WaitVeto? && sent == [ca.announced + 1] && Claimed(after) == Some(ca.announced + 1)
                  && after.address == Some(254)
                else
                  && after.state.CannotClaim? && sent == [254] && after.address.None? && Claimed(after).None?
                  && after.announced == ca.announced)
  {
  }

  /** A CA that wins repeats its claim; claims for other addresses, and its own, leave it silent. */
  lemma WinnerEffect(ca: Ca, src: int, contender: int)
    requires Wf(ca) && (Claimed(ca) != Some(src) || ca.name <= contender)
    ensures Hear(ca, src, contender) == (ca, if Claimed(ca) == Some(src) && ca.name != contender then [src] else [])
  {
  }

  /** A commanded address replaces the preferred one; an unstarted CA takes it at once. */
  lemma BeginBranches(ca: Ca, address: int)
    requires Wf(ca) && 0 <= address <= 253 && ca.connected
    ensures var (after, sent, ok) := Begin(ca, address);
            && ok && sent == [address] && Takes(after, address, !ca.started)
            && after == ca.(preferred := Some(address), announced := address, address := after.address,
                state := after.state)
            && (after.state.WaitVeto? ==> after.address == ca.address)
  {
  }

  /** Only a CA in NORMAL answers a request, and only one to its address or to everybody. */
  lemma AskedBranches(ca: Ca, dst: int)
    requires Wf(ca)
    ensures Asked(ca, dst) == if ca.state.Normal? && (dst == ca.announced || dst == 255) then [ca.announced] else []
  {
  }

  class ControllerApplication {
    const name: int
    const arbitrary: bool
    var preferred: Option<int>
    var address: Option<int>
    var announced: int
    var state: State
    var started: bool
    var connected: bool
    var subscribers: seq<int>
    ghost var sent: seq<Frame>
    ghost var calls: seq<Call>

    function View(): Ca
      reads this
    {
      Ca(name, arbitrary, preferred, address, announced, state, started, connected)
    }

    ghost predicate Valid()
      reads this
    {
      Wf(View())
    }

    /** A preferred address that is not claimable raises. */
    static method Create(name: int, arbitrary: bool, preferred: Option<int>, bypass: bool)
      returns (ca: ControllerApplication?, error: Option<Error>)
      ensures error == (if preferred.Some? && !Claimable(preferred.value) then Some(ValueError) else None)
      ensures error.None? ==> ca != null && fresh(ca) && ca.Valid() && ca.sent == []
      ensures error.None? ==>
                if bypass && preferred.Some? then
                  ca.View() == Ca(name, arbitrary, preferred, preferred, preferred.value, Normal, false, false)
                else
                  ca.View() == Ca(name, arbitrary, preferred, Some(NULL), NULL, NoClaim, false, false)
    {
      if preferred.Some? && (preferred.value < 0 || preferred.value > 253) { return null, Some(ValueError); }
      ca := new ControllerApplication(name, arbitrary, preferred, bypass);
      error := None;
    }

    constructor (name: int, arbitrary: bool, preferred: Option<int>, bypass: bool)
      requires preferred.Some? ==> Claimable(preferred.value)
      ensures Valid() && subscribers == [] && sent == [] && calls == []
      ensures if bypass && preferred.Some? then
                View() == Ca(name, arbitrary, preferred, preferred, preferred.value, Normal, false, false)
              else
                View() == Ca(name, arbitrary, preferred, Some(NULL), NULL, NoClaim, false, false)
    {
      this.name, this.arbitrary, this.preferred := name, arbitrary, preferred;
      if bypass && preferred.Some? {
        announced, address, state := preferred.value, preferred, Normal;
      } else {
        announced, address, state := NULL, Some(NULL), NoClaim;
      }
      started, connected, subscribers, sent, calls := false, false, [], [], [];
    }

    method SendAddressClaimed(a: int)
      modifies this`sent
      ensures sent == old(sent) + [ClaimFrame(name, a)]
    {
      sent := sent + [Frame(true, MakeHeader(6, 0, PF_ADDRESS_CLAIM, GLOBAL, a), Bytes(name, 8))];
    }

    /** The timer callback; it asks to be called again unless the CA was stopped. */
    method ProcessClaimAsync() returns (sleep: Option<real>)
      requires Valid()
      modifies this
      ensures Valid() && View() == Tick(old(View())).0
      ensures sent == old(sent) + ClaimFrames(name, Tick(old(View())).1)
      ensures sleep == if !connected || !started then None
                       else if old(state).NoClaim? && state.WaitVeto? then Some(0.25) else Some(0.5)
    {
      assert ClaimFrames(name, []) == [] && forall a :: ClaimFrames(name, [a]) == [ClaimFrame(name, a)];
      if !connected || !started { return None; }
      sleep := Some(0.5);
      if state.NoClaim? {
        if preferred.Some? {
          announced := preferred.value;
          SendAddressClaimed(announced);
          if announced > 127 && announced < 248 {
            state := WaitVeto;
            sleep := Some(0.25);
          } else {
            address := Some(announced);
            state := Normal;
          }
        }
      } else if state.WaitVeto? {
        address := Some(announced);
        state := Normal;
      }
    }

    method ProcessAddressClaim(src: int, data: seq<int>)
      requires Valid()
      modifies this
      ensures Valid() && View() == Hear(old(View()), src, Contender(data)).0
      ensures sent == old(sent) + ClaimFrames(name, Hear(old(View()), src, Contender(data)).1)
    {
      hide Contender, ClaimFrame, MakeHeader, Bytes;
      assert ClaimFrames(name, []) == [] && forall a :: ClaimFrames(name, [a]) == [ClaimFrame(name, a)];
      if (state.Normal? && address == Some(src)) || (state.WaitVeto? && src == announced) {
        var contender := Contender(data);
        if name == contender { return; }
        if name > contender {
          address := Some(NULL);
          if !arbitrary {
            state := CannotClaim;
            address := None;
            SendAddressClaimed(NULL);
          } else {
            announced := announced + 1;
            SendAddressClaimed(announced);
            state := WaitVeto;
          }
        } else {
          if state.Normal? { SendAddressClaimed(address.value); } else { SendAddressClaimed(announced); }
        }
      }
    }

    /** Commanded Address: nine bytes, NAME and new address; others and single addresses ignore it. */
    method ProcessCommandedAddress(data: seq<int>)
      requires Valid()
      modifies this
      ensures Valid()
      ensures var accepted := |data| >= 9 && Contender(data[..8]) == name && arbitrary;
              if accepted then
                && View() == Begin(old(View()), data[8]).0
                && sent == old(sent) + ClaimFrames(name, Begin(old(View()), data[8]).1)
              else View() == old(View()) && sent == old(sent)
    {
      if |data| < 9 { return; }
      if Contender(data[..8]) != name { return; }
      if !arbitrary { return; }
      var _ := ChangeAddress(data[8]);
    }

    /** True if the claim was started. */
    method ChangeAddress(newAddress: int) returns (ok: bool)
      requires Valid()
      modifies this
      ensures Valid() && View() == Begin(old(View()), newAddress).0 && ok == Begin(old(View()), newAddress).2
      ensures sent == old(sent) + ClaimFrames(name, Begin(old(View()), newAddress).1)
    {
      assert ClaimFrames(name, []) == [] && forall a :: ClaimFrames(name, [a]) == [ClaimFrame(name, a)];
      if newAddress < 0 || newAddress > 253 { return false; }
      if !connected { return false; }
      SendAddressClaimed(newAddress);
      preferred := Some(newAddress);
      announced := newAddress;
      if newAddress > 127 && newAddress < 248 && started {
        state := WaitVeto;
      } else {
        address := Some(newAddress);
        state := Normal;
      }
      return true;
    }

    /**
     A request to an address in use, or to everybody: one for Address Claimed is answered
     with that address, any other goes to the subscribers. No request is taken before
     the CA has its address.
     */
    method ProcessRequest(src: int, dst: int, data: seq<int>) returns (error: Option<Error>)
      requires Valid() && IsBytes(data)
      modifies this`sent, this`calls
      ensures Valid()
      ensures |data| < 3 ==> error == Some(IndexError) && sent == old(sent) && calls == old(calls)
      ensures |data| >= 3 ==>
                var pgn := LittleEndian(data[..3]);
                && error.None?
                && sent == old(sent) + (if pgn == 60928 then ClaimFrames(name, Asked(View(), dst)) else [])
                && calls == old(calls)
                            + (if pgn != 60928 && Asked(View(), dst) != []
                               then Calls(subscribers, src, dst, pgn) else [])
    {
      hide LittleEndian, Calls;
      assert ClaimFrames(name, []) == [] && forall a :: ClaimFrames(name, [a]) == [ClaimFrame(name, a)];
      if |data| < 3 { return Some(IndexError); }
      error := None;
      var pgn := data[0] + data[1] * 0x100 + data[2] * 0x1_0000;
      RequestedPgn(data);
      if !state.Normal? || (address != Some(dst) && dst != GLOBAL) { return; }
      if pgn == PGN_ADDRESS_CLAIM {
        SendAddressClaimed(address.value);
      } else {
        CallSubscribers(src, dst, pgn);
      }
    }

    method CallSubscribers(src: int, dst: int, pgn: int)
      modifies this`calls
      ensures calls == old(calls) + Calls(subscribers, src, dst, pgn)
    {
      for i := 0 to |subscribers|
        invariant calls == old(calls) + Calls(subscribers[..i], src, dst, pgn)
      {
        var call := Call(subscribers[i], src, dst, pgn);
        assert subscribers[..i + 1][..i] == subscribers[..i];
        Associate(old(calls), Calls(subscribers[..i], src, dst, pgn), [call]);
        calls := calls + [call];
      }
      assert subscribers[..|subscribers|] == subscribers;
    }

    lemma RequestedPgn(data: seq<int>)
      requires |data| >= 3
      ensures LittleEndian(data[..3]) == data[0] + data[1] * 0x100 + data[2] * 0x1_0000
    {
      var s := data[..3];
      assert s[1..][1..] == [data[2]] && [data[2]][1..] == [];
      assert LittleEndian([data[2]]) == data[2];
    }

    /** Messages are accepted only at an address in use, or to everybody. */
    method MessageAcceptable(dst: int) returns (yes: bool)
      requires Valid()
      ensures yes <==> state.Normal? && (dst == GLOBAL || Claimed(View()) == Some(dst))
    {
      if !state.Normal? { return false; }
      if dst == GLOBAL { return true; }
      return address == Some(dst);
    }
  }
}
