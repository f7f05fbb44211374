/**
 DM1, the active diagnostic trouble codes: lamps and codes packed into a payload,
 and the parser on the other side (SAE J1939-73 section 5.7.1).
 */
module Dm1 {
  import opened Common
  import opened Wire

  /** A trouble code: suspect parameter, failure mode, occurrence count, conversion method. */
  datatype Dtc = Dtc(spn: int, fmi: int, oc: int, cm: int)

  /**
   A dictionary handed in by the application. Only for the method it makes a difference
   whether the key is missing or holds Python's None.
   */
  datatype Entry = Entry(spn: Option<int>, fmi: Option<int>, oc: Option<int>, cm: Option<Option<int>>)

  /** The conversion method of an entry: 4 without a key; None is none of the four. */
  function MethodOf(e: Entry): int {
    if e.cm.None? then 4 else if e.cm.value.None? then 0 else e.cm.value.value
  }

  predicate Complete(e: Entry) {
    e.spn.Some? && e.fmi.Some?
  }

  /** Entries as `_send` leaves them when it has walked through the first `n`: counts are filled in. */
  function Counted(es: seq<Entry>, n: nat): (r: seq<Entry>)
    ensures |r| == |es|
  {
    seq(|es|, i requires 0 <= i < |es| =>
      if i < n && Complete(es[i]) && es[i].oc.None? then es[i].(oc := Some(0)) else es[i])
  }

  /** The dictionaries a received list consists of. */
  function Entries(ds: seq<Dtc>): (r: seq<Entry>)
    ensures |r| == |ds|
  {
    seq(|ds|, i requires 0 <= i < |ds| =>
      Entry(Some(ds[i].spn), Some(ds[i].fmi), Some(ds[i].oc), Some(Some(ds[i].cm))))
  }

  datatype Lamps<T> = Lamps(pl: T, awl: T, rsl: T, mil: T)

  const OFF := 0
  const ON := 1
  const ON_SLOW_FLASH := 2
  const ON_FAST_FLASH := 3
  const NA := 4

  predicate Method(cm: int) { 1 <= cm <= 4 }

  /** 19-bit SPN, 5-bit FMI, 7-bit count. */
  predicate Fits(d: Dtc) {
    0 <= d.spn < 0x8_0000 && 0 <= d.fmi < 32 && 0 <= d.oc < 128 && Method(d.cm)
  }

  // ---- one trouble code ----

  /** The four bytes of `DTC(spn=, fmi=, oc=, cm=)`. */
  function CodeBytes(d: Dtc): (b: seq<int>)
    ensures |b| == 4 && IsBytes(b)
  {
    var b1 := if d.cm == 1 then d.spn / 2048 % 0x100 else if d.cm == 2 then d.spn / 8 % 0x100 else d.spn % 0x100;
    var b2 := if d.cm == 1 then d.spn / 8 % 0x100
              else if d.cm == 2 then d.spn / 2048 % 0x100 else d.spn / 0x100 % 0x100;
    var top := if d.cm == 3 || d.cm == 4 then d.spn / 0x1_0000 % 8 else d.spn % 8;
    [b1, b2, top * 32 + d.fmi % 32, d.oc % 128 + (if d.cm != 4 then 128 else 0)]
  }

  function Word(b: seq<int>): int
    requires |b| == 4
  {
    b[0] + b[1] * 0x100 + b[2] * 0x1_0000 + b[3] * 0x100_0000
  }

  /** `DTC(dtc=word, cm=cm)` */
  function CodeOf(word: int, cm: int): Dtc {
    var b1, b2, b3 := word % 0x100, word / 0x100 % 0x100, word / 0x1_0000 % 0x100;
    var low := b3 / 32 % 8;
    Dtc(if cm == 1 then b1 * 2048 + b2 * 8 + low
        else if cm == 2 then b2 * 2048 + b1 * 8 + low
        else b1 + b2 * 0x100 + low * 0x1_0000,
        b3 % 32, word / 0x100_0000 % 128, cm)
  }

  /** The conversion method the receiver assumes. */
  function AssumedMethod(word: int, configured: int): int {
    if word / 0x8000_0000 % 2 == 0 then 4 else configured
  }

  lemma WordFields(b: seq<int>)
    requires |b| == 4 && IsBytes(b)
    ensures var w := Word(b);
            && 0 <= w < 0x1_0000_0000
            && w % 0x100 == b[0] && w / 0x100 % 0x100 == b[1] && w / 0x1_0000 % 0x100 == b[2]
            && w / 0x100_0000 == b[3] && w / 0x8000_0000 == b[3] / 128
  {
    var w := Word(b);
    assert w / 0x100 == b[1] + b[2] * 0x100 + b[3] * 0x1_0000;
    assert w / 0x1_0000 == b[2] + b[3] * 0x100;
    assert w / 0x100_0000 == b[3];
    assert w / 0x8000_0000 == w / 0x100_0000 / 128;
  }

  lemma SpnParts(spn: int)
    requires 0 <= spn < 0x8_0000
    ensures spn / 2048 % 0x100 * 2048 + spn / 8 % 0x100 * 8 + spn % 8 == spn
    ensures spn % 0x100 + spn / 0x100 % 0x100 * 0x100 + spn / 0x1_0000 % 8 * 0x1_0000 == spn
  {
    assert spn / 2048 == spn / 8 / 0x100;
    assert spn / 0x1_0000 == spn / 0x100 / 0x100;
  }

  /** A code decoded with its own method is what was encoded. */
  lemma CodeRoundTrip(d: Dtc)
    requires Fits(d)
    ensures CodeOf(Word(CodeBytes(d)), d.cm) == d
    ensures Word(CodeBytes(d)) / 0x8000_0000 % 2 == if d.cm == 4 then 0 else 1
  {
    var b := CodeBytes(d);
    hide Word;
    WordFields(b);
    SpnParts(d.spn);
    ThirdByte(if d.cm == 3 || d.cm == 4 then d.spn / 0x1_0000 % 8 else d.spn % 8, d.fmi);
    FourthByte(d.oc, if d.cm != 4 then 1 else 0);
  }

  lemma ThirdByte(top: int, fmi: int)
    requires 0 <= top < 8 && 0 <= fmi < 32
    ensures (top * 32 + fmi % 32) / 32 % 8 == top && (top * 32 + fmi % 32) % 32 == fmi
  {
  }

  lemma FourthByte(oc: int, bit: int)
    requires 0 <= oc < 128 && 0 <= bit < 2
    ensures (oc % 128 + bit * 128) % 128 == oc && (oc % 128 + bit * 128) / 128 == bit
  {
  }

  /** "No code": the parser drops this word. */
  predicate AllZero(d: Dtc) {
    d.spn == 0 && d.fmi == 0 && d.oc == 0 && d.cm == 4
  }

  lemma ZeroWord(d: Dtc)
    requires Fits(d)
    ensures Word(CodeBytes(d)) == 0 <==> AllZero(d)
  {
    hide Word;
    WordFields(CodeBytes(d));
    CodeRoundTrip(d);
    if AllZero(d) { assert CodeBytes(d) == [0, 0, 0, 0]; ZeroBytes(); }
  }

  lemma ZeroBytes()
    ensures Word([0, 0, 0, 0]) == 0
  {
  }

  // ---- lamps ----

  /** `_DATA_LUT`, lamp and flash bits. */
  function LampBits(status: int): (r: (int, int))
    ensures 0 <= r.0 < 4 && 0 <= r.1 < 4
  {
    if status == ON then (1, 3) else if status == ON_SLOW_FLASH then (1, 0)
    else if status == ON_FAST_FLASH then (1, 1) else if status == NA then (3, 3) else (0, 3)
  }

  /** Missing and unknown lamps are off. */
  function Known(status: Option<int>): int {
    if status.Some? && 0 <= status.value <= 4 then status.value else OFF
  }

  /** `get_status` */
  function LampStatus(lamp: int, flash: int): int {
    if lamp == 0 then OFF
    else if lamp == 1 then
      if flash == 0 then ON_SLOW_FLASH else if flash == 1 then ON_FAST_FLASH else if flash == 3 then ON else NA
    else NA
  }

  function KnownLamps(l: Lamps<Option<int>>): Lamps<int> {
    Lamps(Known(l.pl), Known(l.awl), Known(l.rsl), Known(l.mil))
  }

  function LampBytes(l: Lamps<int>): (b: seq<int>)
    ensures |b| == 2
  {
    [LampBits(l.pl).0 + LampBits(l.awl).0 * 4 + LampBits(l.rsl).0 * 16 + LampBits(l.mil).0 * 64,
     LampBits(l.pl).1 + LampBits(l.awl).1 * 4 + LampBits(l.rsl).1 * 16 + LampBits(l.mil).1 * 64]
  }

  function LampsOf(b0: int, b1: int): Lamps<int> {
    Lamps(LampStatus(b0 % 4, b1 % 4), LampStatus(b0 / 4 % 4, b1 / 4 % 4),
          LampStatus(b0 / 16 % 4, b1 / 16 % 4), LampStatus(b0 / 64 % 4, b1 / 64 % 4))
  }

  lemma Quarters(a: int, b: int, c: int, d: int)
    requires 0 <= a < 4 && 0 <= b < 4 && 0 <= c < 4 && 0 <= d < 4
    ensures var x := a + b * 4 + c * 16 + d * 64;
            x % 4 == a && x / 4 % 4 == b && x / 16 % 4 == c && x / 64 % 4 == d
  {
    var x := a + b * 4 + c * 16 + d * 64;
    assert x / 4 == b + c * 4 + d * 16;
    assert x / 16 == c + d * 4;
  }

  lemma LampBack(status: Option<int>)
    ensures var bits := LampBits(Known(status)); LampStatus(bits.0, bits.1) == Known(status)
  {
  }

  lemma LampsRoundTrip(l: Lamps<Option<int>>)
    ensures var b := LampBytes(KnownLamps(l)); LampsOf(b[0], b[1]) == KnownLamps(l)
  {
    hide LampBits, LampStatus, Known;
    var k := KnownLamps(l);
    LampBack(l.pl);
    LampBack(l.awl);
    LampBack(l.rsl);
    LampBack(l.mil);
    Quarters(LampBits(k.pl).0, LampBits(k.awl).0, LampBits(k.rsl).0, LampBits(k.mil).0);
    Quarters(LampBits(k.pl).1, LampBits(k.awl).1, LampBits(k.rsl).1, LampBits(k.mil).1);
  }

  /** What two bits for the lamp and two for its flashing stand for. */
  ghost predicate Stands(status: int, lamp: int, flash: int) {
    && 0 <= status <= 4
    && (status == 0 <==> lamp == 0)
    && (status == 1 <==> lamp == 1 && flash == 3)
    && (status == 2 <==> lamp == 1 && flash == 0)
    && (status == 3 <==> lamp == 1 && flash == 1)
  }

  /** Whatever bytes arrive: the protect lamp is in the lowest two bits, the malfunction indicator in the highest. */
  lemma LampsStand(b0: int, b1: int)
    ensures var l := LampsOf(b0, b1);
            && Stands(l.pl, b0 % 4, b1 % 4) && Stands(l.awl, b0 / 4 % 4, b1 / 4 % 4)
            && Stands(l.rsl, b0 / 16 % 4, b1 / 16 % 4) && Stands(l.mil, b0 / 64 % 4, b1 / 64 % 4)
  {
    hide Stands;
    OneStands(b0 % 4, b1 % 4);
    OneStands(b0 / 4 % 4, b1 / 4 % 4);
    OneStands(b0 / 16 % 4, b1 / 16 % 4);
    OneStands(b0 / 64 % 4, b1 / 64 % 4);
  }

  lemma OneStands(lamp: int, flash: int)
    ensures Stands(LampStatus(lamp, flash), lamp, flash)
  {
  }

  /** The bits sent: an unlit lamp has both flash bits set, one that is not available all four bits. */
  lemma LampsSent(l: Lamps<Option<int>>)
    ensures var b, k := LampBytes(KnownLamps(l)), KnownLamps(l);
            && SentAs(l.pl, b[0] % 4, b[1] % 4) && SentAs(l.awl, b[0] / 4 % 4, b[1] / 4 % 4)
            && SentAs(l.rsl, b[0] / 16 % 4, b[1] / 16 % 4) && SentAs(l.mil, b[0] / 64 % 4, b[1] / 64 % 4)
  {
    hide LampBits, Known, SentAs;
    var k := KnownLamps(l);
    OneSent(l.pl);
    OneSent(l.awl);
    OneSent(l.rsl);
    OneSent(l.mil);
    Quarters(LampBits(k.pl).0, LampBits(k.awl).0, LampBits(k.rsl).0, LampBits(k.mil).0);
    Quarters(LampBits(k.pl).1, LampBits(k.awl).1, LampBits(k.rsl).1, LampBits(k.mil).1);
  }

  ghost predicate SentAs(status: Option<int>, lamp: int, flash: int) {
    (lamp, flash) == match status
                     case Some(1) => (1, 3)
                     case Some(2) => (1, 0)
                     case Some(3) => (1, 1)
                     case Some(4) => (3, 3)
                     case _ => (0, 3)
  }

  lemma OneSent(status: Option<int>)
    ensures SentAs(status, LampBits(Known(status)).0, LampBits(Known(status)).1)
  {
  }

  // ---- the payload ----

  /** Entries without SPN or FMI are left out; count and method have defaults. */
  function Kept(es: seq<Entry>): seq<Dtc> {
    if es == [] then []
    else
      var e := es[0];
      (if e.spn.None? || e.fmi.None? then []
       else [Dtc(e.spn.value, e.fmi.value, if e.oc.None? then 0 else e.oc.value, MethodOf(e))])
      + Kept(es[1..])
  }

  /**
   An entry with SPN and FMI is one code: no count means zero, no key for the method
   means method 4, and a key that holds None is no method at all.
   */
  lemma EntryKept(e: Entry)
    ensures if e.spn.None? || e.fmi.None? then Kept([e]) == []
            else
              && |Kept([e])| == 1 && Kept([e])[0].spn == e.spn.value && Kept([e])[0].fmi == e.fmi.value
              && Kept([e])[0].oc == (match e.oc case Some(n) => n case None => 0)
              && match e.cm
                 case None => Kept([e])[0].cm == 4
                 case Some(None) => Kept([e])[0].cm !in {1, 2, 3, 4}
                 case Some(Some(cm)) => Kept([e])[0].cm == cm
  {
    assert [e][1..] == [];
  }

  lemma {:induction false} KeptSnoc(es: seq<Entry>, e: Entry)
    ensures Kept(es + [e]) == Kept(es) + Kept([e])
  {
    if es == [] {
      assert es + [e] == [e];
    } else {
      assert (es + [e])[1..] == es[1..] + [e];
      KeptSnoc(es[1..], e);
      Associate(Kept([es[0]]), Kept(es[1..]), Kept([e]));
      assert [es[0]][1..] == [] && Kept([es[0]]) + Kept(es[1..]) == Kept(es);
    }
  }

  function CodesBytes(ds: seq<Dtc>): (b: seq<int>)
    ensures |b| == 4 * |ds|
  {
    if ds == [] then [] else CodeBytes(ds[0]) + CodesBytes(ds[1..])
  }

  lemma {:induction false} CodesBytesSnoc(ds: seq<Dtc>, d: Dtc)
    ensures CodesBytes(ds + [d]) == CodesBytes(ds) + CodeBytes(d)
  {
    if ds == [] {
      assert ds + [d] == [d] && [d][1..] == [];
    } else {
      assert (ds + [d])[1..] == ds[1..] + [d];
      CodesBytesSnoc(ds[1..], d);
    }
  }

  /** The three ways the payload is filled up. */
  function Padding(codes: nat): seq<int> {
    if codes == 0 then [0, 0, 0, 0, 0xFF, 0xFF] else if codes == 1 then [0xFF, 0xFF] else []
  }

  function Payload(l: Lamps<int>, ds: seq<Dtc>): seq<int> {
    LampBytes(l) + CodesBytes(ds) + Padding(|ds|)
  }

  predicate Parsable(data: seq<int>) {
    |data| >= 6 && (|data| == 8 || (|data| - 2) % 4 == 0)
  }

  function WordAt(data: seq<int>, i: nat): int
    requires 4 * i + 6 <= |data|
  {
    data[i * 4 + 2] % 0x100 + data[i * 4 + 3] % 0x100 * 0x100 + data[i * 4 + 4] % 0x100 * 0x1_0000
    + data[i * 4 + 5] % 0x100 * 0x100_0000
  }

  /** The codes of the first `n` words; words of zeros are not codes. */
  function CodesIn(data: seq<int>, n: nat, configured: int): seq<Dtc>
    requires 4 * n + 2 <= |data|
  {
    if n == 0 then []
    else
      var w := WordAt(data, n - 1);
      CodesIn(data, n - 1, configured) + (if w == 0 then [] else [CodeOf(w, AssumedMethod(w, configured))])
  }

  // ---- the round trip ----

  /** What survives of one code. */
  function Seen(d: Dtc, configured: int): seq<Dtc> {
    var w := Word(CodeBytes(d));
    if w == 0 then [] else [CodeOf(w, AssumedMethod(w, configured))]
  }

  function AllSeen(ds: seq<Dtc>, configured: int): seq<Dtc> {
    if ds == [] then [] else AllSeen(ds[..|ds| - 1], configured) + Seen(ds[|ds| - 1], configured)
  }

  lemma {:induction false} CodesBytesAt(ds: seq<Dtc>, i: nat)
    requires i < |ds|
    ensures CodesBytes(ds)[4 * i..4 * i + 4] == CodeBytes(ds[i])
  {
    hide CodeBytes;
    if i > 0 {
      CodesBytesAt(ds[1..], i - 1);
      assert CodesBytes(ds)[4 * i..4 * i + 4] == CodesBytes(ds[1..])[4 * (i - 1)..4 * (i - 1) + 4];
    }
  }

  lemma WordInPayload(l: Lamps<int>, ds: seq<Dtc>, i: nat)
    requires i < |ds|
    ensures WordAt(Payload(l, ds), i) == Word(CodeBytes(ds[i]))
  {
    hide CodeBytes, LampBytes;
    var data, b := Payload(l, ds), CodeBytes(ds[i]);
    CodesBytesAt(ds, i);
    assert data[2 + 4 * i..2 + 4 * i + 4] == CodesBytes(ds)[4 * i..4 * i + 4];
    assert data[4 * i + 2] == b[0] && data[4 * i + 3] == b[1] && data[4 * i + 4] == b[2] && data[4 * i + 5] == b[3];
  }

  lemma {:induction false} PayloadSeen(l: Lamps<int>, ds: seq<Dtc>, n: nat, configured: int)
    requires n <= |ds|
    ensures CodesIn(Payload(l, ds), n, configured) == AllSeen(ds[..n], configured)
  {
    hide CodeBytes, LampBytes, Word, CodeOf, WordAt;
    if n > 0 {
      PayloadSeen(l, ds, n - 1, configured);
      WordInPayload(l, ds, n - 1);
      assert ds[..n][..n - 1] == ds[..n - 1];
    }
  }

  /** The code reaches the receiver unchanged. */
  predicate Survives(d: Dtc, configured: int) {
    !AllZero(d) && (d.cm == 4 || d.cm == configured)
  }

  lemma SeenIff(d: Dtc, configured: int)
    requires Fits(d) && 1 <= configured <= 3
    ensures |Seen(d, configured)| <= 1
    ensures Seen(d, configured) == [d] <==> Survives(d, configured)
  {
    hide CodeBytes, Word;
    ZeroWord(d);
    CodeRoundTrip(d);
  }

  lemma {:induction false} AllSeenIff(ds: seq<Dtc>, configured: int)
    requires 1 <= configured <= 3 && forall d :: d in ds ==> Fits(d)
    ensures |AllSeen(ds, configured)| <= |ds|
    ensures AllSeen(ds, configured) == ds <==> forall d :: d in ds ==> Survives(d, configured)
  {
    hide Seen, Fits, Survives;
    if ds != [] {
      var most, last := ds[..|ds| - 1], ds[|ds| - 1];
      assert last in ds && ds == most + [last];
      AllSeenIff(most, configured);
      SeenIff(last, configured);
      SplitLast(AllSeen(most, configured), Seen(last, configured), most, last);
    }
  }

  lemma SplitLast(a: seq<Dtc>, b: seq<Dtc>, most: seq<Dtc>, last: Dtc)
    requires |a| <= |most| && |b| <= 1
    ensures a + b == most + [last] <==> a == most && b == [last]
  {
    if a + b == most + [last] {
      assert |b| == 1 && |a| == |most|;
      assert (a + b)[..|a|] == a && (a + b)[|a|] == b[0];
    }
  }

  /** What the parser leaves behind: lamps and codes. */
  function Parsed(data: seq<int>, configured: int): (Lamps<int>, seq<Dtc>)
    requires Parsable(data)
  {
    (LampsOf(data[0], data[1]), CodesIn(data, (|data| - 2) / 4, configured))
  }

  /** The payload: lamps, four bytes a code, and filling for a list of none or one. */
  lemma PayloadBytes(l: Lamps<int>, ds: seq<Dtc>)
    ensures var data := Payload(l, ds);
            && data[..2] == LampBytes(l) && |data| == (if |ds| <= 1 then 8 else 2 + 4 * |ds|)
            && (ds == [] ==> data[2..] == [0, 0, 0, 0, 255, 255])
            && (|ds| == 1 ==> data[6..] == [255, 255])
            && forall i :: 0 <= i < |ds| ==> data[2 + 4 * i..6 + 4 * i] == CodeBytes(ds[i])
  {
    hide LampBytes, CodeBytes;
    var data := Payload(l, ds);
    forall i | 0 <= i < |ds| ensures data[2 + 4 * i..6 + 4 * i] == CodeBytes(ds[i]) {
      CodesBytesAt(ds, i);
      assert data[2 + 4 * i..6 + 4 * i] == CodesBytes(ds)[4 * i..4 * i + 4];
    }
  }

  /** What the list given looks like afterwards: only missing counts of complete entries become zero. */
  lemma CountsFilledIn(es: seq<Entry>, n: nat, i: nat)
    requires i < |es|
    ensures var e, e1 := es[i], Counted(es, n)[i];
            && e1.spn == e.spn && e1.fmi == e.fmi && e1.cm == e.cm
            && (e1.oc != e.oc <==> i < n && e.spn.Some? && e.fmi.Some? && e.oc.None?)
            && (e1.oc != e.oc ==> e1.oc == Some(0))
  {
  }

  /** The fields of a code in its four bytes, by the place its conversion method gives them. */
  ghost predicate Spells(d: Dtc, b: seq<int>)
    requires |b| == 4
  {
    && d.fmi == b[2] % 32 && d.oc == b[3] % 128
    && d.spn == (if d.cm == 1 then b[0] * 2048 + b[1] * 8 + b[2] / 32
                 else if d.cm == 2 then b[1] * 2048 + b[0] * 8 + b[2] / 32
                 else b[0] + b[1] * 0x100 + b[2] / 32 * 0x1_0000)
  }

  /**
   Whatever payload arrives: each group of four bytes that are not all zero is one code,
   of method 4 if the highest bit is clear, of the method configured otherwise.
   */
  lemma CodesSpelled(data: seq<int>, n: nat, configured: int)
    requires IsBytes(data) && 4 * n + 6 <= |data|
    ensures var b := data[4 * n + 2..4 * n + 6];
            var before, after := CodesIn(data, n, configured), CodesIn(data, n + 1, configured);
            if b == [0, 0, 0, 0] then after == before
            else
              && |after| == |before| + 1 && after[..|before|] == before && Spells(after[|before|], b)
              && after[|before|].cm == if b[3] < 128 then 4 else configured
  {
    var b := data[4 * n + 2..4 * n + 6];
    assert WordAt(data, n) == Word(b);
    hide Word, CodeOf, AssumedMethod, WordAt, Spells;
    if b == [0, 0, 0, 0] { ZeroBytes(); } else { NonZeroWord(b); }
    WordSpelled(b, configured);
  }

  lemma WordSpelled(b: seq<int>, configured: int)
    requires |b| == 4 && IsBytes(b)
    ensures var cm := AssumedMethod(Word(b), configured);
            && cm == (if b[3] < 128 then 4 else configured)
            && CodeOf(Word(b), cm).cm == cm && Spells(CodeOf(Word(b), cm), b)
  {
    hide Word;
    WordFields(b);
  }

  lemma NonZeroWord(b: seq<int>)
    requires |b| == 4 && IsBytes(b) && b != [0, 0, 0, 0]
    ensures Word(b) != 0
  {
    assert b[0] != 0 || b[1] != 0 || b[2] != 0 || b[3] != 0;
  }

  /** Payloads of lamps and one code, filled up or not, or of lamps and several codes. */
  lemma LengthsParsed(data: seq<int>)
    ensures Parsable(data) <==> |data| == 8 || exists n: nat :: n >= 1 && |data| == 2 + 4 * n
  {
    if Parsable(data) && |data| != 8 {
      var n := (|data| - 2) / 4;
      assert n >= 1 && |data| == 2 + 4 * n;
    }
  }

  lemma EmptyPayload(l: Lamps<int>, configured: int)
    ensures CodesIn(Payload(l, []), 1, configured) == []
  {
    hide LampBytes;
    assert CodesBytes([]) == [];
    assert WordAt(Payload(l, []), 0) == 0;
  }

  /**
   Parsing a built payload yields the same lamps, and the same list of codes if and
   only if no code is all zeros and every code uses method 4 or the method the
   receiver is configured for; for no code, one code and many codes.
   */
  lemma Dm1RoundTrip(l: Lamps<Option<int>>, ds: seq<Dtc>, configured: int)
    requires 1 <= configured <= 3 && forall d :: d in ds ==> Fits(d)
    ensures var data := Payload(KnownLamps(l), ds);
            && Parsable(data)
            && Parsed(data, configured).0 == KnownLamps(l)
            && (Parsed(data, configured).1 == ds <==> forall d :: d in ds ==> Survives(d, configured))
  {
    hide LampBytes, CodesIn, CodesBytes, Survives, Fits, LampsOf, KnownLamps, AllSeen;
    var data := Payload(KnownLamps(l), ds);
    LampsRoundTrip(l);
    assert data[0] == LampBytes(KnownLamps(l))[0] && data[1] == LampBytes(KnownLamps(l))[1];
    if ds == [] {
      EmptyPayload(KnownLamps(l), configured);
    } else {
      assert (|data| - 2) / 4 == |ds|;
      PayloadSeen(KnownLamps(l), ds, |ds|, configured);
      assert ds[..|ds|] == ds;
      AllSeenIff(ds, configured);
    }
  }

  class Dm1 {
    const rxCmBitSet: int
    var lampStatus: Lamps<int>
    var dtcs: seq<Entry>
    var data: seq<int>

    /** A method other than 1, 2 or 3 raises. */
    static method Create(rxCmBitSet: int) returns (dm1: Dm1?, error: Option<Error>)
      ensures error == (if 1 <= rxCmBitSet <= 3 then None else Some(ValueError))
      ensures error.None? ==> dm1 != null && fresh(dm1) && dm1.rxCmBitSet == rxCmBitSet
    {
      if rxCmBitSet < 1 || rxCmBitSet > 3 { return null, Some(ValueError); }
      dm1 := new Dm1(rxCmBitSet);
      error := None;
    }

    constructor (rxCmBitSet: int)
      ensures this.rxCmBitSet == rxCmBitSet && dtcs == [] && data == []
    {
      this.rxCmBitSet := rxCmBitSet;
      lampStatus, dtcs, data := Lamps(OFF, OFF, OFF, OFF), [], [];
    }

    /** `DtcLamp.get_data`: two bits a lamp, from the protect lamp up. */
    method LampData(l: Lamps<Option<int>>) returns (b: seq<int>)
      ensures b == LampBytes(KnownLamps(l))
    {
      var keys := [l.pl, l.awl, l.rsl, l.mil];
      b := [0, 0];
      var shift := 1;
      for idx := 0 to 4
        invariant shift == (if idx == 0 then 1 else if idx == 1 then 4 else if idx == 2 then 16
                  else if idx == 3 then 64 else 256)
        invariant b == [Bits(keys, idx, true), Bits(keys, idx, false)]
      {
        var bits := LampBits(Known(keys[idx]));
        b := [b[0] + bits.0 * shift, b[1] + bits.1 * shift];
        shift := shift * 4;
      }
      assert b[0] == LampBytes(KnownLamps(l))[0] && b[1] == LampBytes(KnownLamps(l))[1];
    }

    static ghost function Bits(keys: seq<Option<int>>, n: nat, lamp: bool): int
      requires n <= 4 == |keys|
    {
      var bit := (k: Option<int>) => if lamp then LampBits(Known(k)).0 else LampBits(Known(k)).1;
      (if n > 0 then bit(keys[0]) else 0) + (if n > 1 then bit(keys[1]) * 4 else 0)
      + (if n > 2 then bit(keys[2]) * 16 else 0) + (if n > 3 then bit(keys[3]) * 64 else 0)
    }

    /**
     Builds the payload. An unknown conversion method raises: nothing is sent, and what
     was built for the entries before it stays, as do the counts filled in so far.
     */
    method Send(lamps: Lamps<Option<int>>, entries: seq<Entry>)
      returns (priority: int, error: Option<Error>, ghost walked: nat)
      modifies this
      ensures error == (if forall d :: d in Kept(entries) ==> 1 <= d.cm <= 4 then None else Some(ValueError))
      ensures lampStatus == KnownLamps(lamps) && walked <= |entries| && dtcs == Counted(entries, walked)
      ensures error.None? ==>
                && walked == |entries| && data == Payload(KnownLamps(lamps), Kept(entries))
                && priority == (if |Kept(entries)| > 1 then 7 else 6)
      ensures error.Some? ==>
                && walked > 0 && Complete(entries[walked - 1]) && !(1 <= MethodOf(entries[walked - 1]) <= 4)
                && (forall d :: d in Kept(entries[..walked - 1]) ==> 1 <= d.cm <= 4)
                && data == LampBytes(KnownLamps(lamps)) + CodesBytes(Kept(entries[..walked - 1]))
    {
      hide CodeBytes, LampBytes, Kept;
      priority, walked := 6, 0;
      lampStatus, dtcs := KnownLamps(lamps), entries;
      data := LampData(lamps);
      KeptNone(entries);
      for i := 0 to |entries|
        invariant walked == i && lampStatus == KnownLamps(lamps) && dtcs == Counted(entries, i)
        invariant data == LampBytes(KnownLamps(lamps)) + CodesBytes(Kept(entries[..i]))
        invariant forall d :: d in Kept(entries[..i]) ==> Method(d.cm)
      {
        walked := i + 1;
        var e := entries[i];
        KeptUpTo(entries, i);
        if e.spn.None? || e.fmi.None? {
          assert Kept(entries[..i]) + [] == Kept(entries[..i]);
          continue;
        }
        if e.oc.None? { dtcs := dtcs[i := e.(oc := Some(0))]; }
        var d := Dtc(e.spn.value, e.fmi.value, if e.oc.None? then 0 else e.oc.value, MethodOf(e));
        if !Method(d.cm) {
          StillKept(entries, i, d);
          return priority, Some(ValueError), i + 1;
        }
        CodesBytesSnoc(Kept(entries[..i]), d);
        Associate(LampBytes(KnownLamps(lamps)), CodesBytes(Kept(entries[..i])), CodeBytes(d));
        data := data + CodeBytes(d);
      }
      assert entries[..|entries|] == entries;
      if |data| == 2 {
        data := data + [0, 0, 0, 0, 0xFF, 0xFF];
      } else if |data| == 6 {
        data := data + [0xFF, 0xFF];
      }
      priority := if |data| > 8 then 7 else 6;
      error := None;
    }

    static lemma KeptNone(es: seq<Entry>)
      ensures Kept(es[..0]) == [] && CodesBytes([]) == []
    {
    }

    static lemma KeptUpTo(es: seq<Entry>, i: nat)
      requires i < |es|
      ensures Kept(es[..i + 1]) == Kept(es[..i]) + Kept([es[i]])
      ensures Kept([es[i]]) ==
              if es[i].spn.None? || es[i].fmi.None? then []
              else [Dtc(es[i].spn.value, es[i].fmi.value, if es[i].oc.None? then 0 else es[i].oc.value,
                        MethodOf(es[i]))]
    {
      KeptSnoc(es[..i], es[i]);
      assert es[..i + 1] == es[..i] + [es[i]];
      assert [es[i]][1..] == [];
    }

    /** What the first entries contribute stays in the whole list. */
    static lemma {:induction false} StillKept(es: seq<Entry>, i: nat, d: Dtc)
      requires i < |es| && d in Kept(es[..i + 1])
      ensures d in Kept(es)
      decreases |es| - i
    {
      if i + 1 < |es| {
        KeptUpTo(es, i + 1);
        StillKept(es, i + 1, d);
      } else {
        assert es[..i + 1] == es;
      }
    }

    /** Reads `data`; a payload of impossible length changes nothing. */
    method ParseReceived()
      requires 1 <= rxCmBitSet <= 3
      modifies this`lampStatus, this`dtcs
      ensures !Parsable(data) ==> lampStatus == old(lampStatus) && dtcs == old(dtcs)
      ensures Parsable(data) ==>
                lampStatus == Parsed(data, rxCmBitSet).0 && dtcs == Entries(Parsed(data, rxCmBitSet).1)
    {
      hide CodeOf, LampsOf, WordAt;
      var length := |data|;
      if length < 6 { return; }
      if length != 8 && (length - 2) % 4 != 0 { return; }
      var count := (length - 2) / 4;
      lampStatus := LampsOf(data[0], data[1]);
      dtcs := [];
      for i := 0 to count
        invariant lampStatus == LampsOf(data[0], data[1]) && dtcs == Entries(CodesIn(data, i, rxCmBitSet))
      {
        var word := WordAt(data, i);
        if word != 0 {
          var d := CodeOf(word, AssumedMethod(word, rxCmBitSet));
          dtcs := dtcs + [Entry(Some(d.spn), Some(d.fmi), Some(d.oc), Some(Some(d.cm)))];
          assert Entries(CodesIn(data, i, rxCmBitSet) + [d]) == dtcs;
        }
      }
    }
  }
}
