/** Flow control in windows: how far `c` grants of one window each reach, and how many it takes. */
module Windows {
  import opened Common

  /** The size of `c` full windows. */
  function Granted(window: int, c: nat): int {
    if c == 0 then 0 else Granted(window, c - 1) + window
  }

  /** Packets granted by the first `c` windows; the last window ends with the message. */
  function Border(window: int, total: int, c: nat): int {
    Min(Granted(window, c), total)
  }

  /** Number of windows of a whole message. */
  function Count(window: int, total: int): int
    requires window > 0
  {
    (total + window - 1) / window
  }

  lemma {:induction false} GrantedIsProduct(window: int, c: nat)
    ensures Granted(window, c) == c * window
  {
    if c > 0 {
      GrantedIsProduct(window, c - 1);
      assert c * window == (c - 1) * window + window;
    }
  }

  lemma {:induction false} GrantedMonotone(window: int, i: nat, c: nat)
    requires i <= c && window >= 0
    ensures 0 <= Granted(window, i) <= Granted(window, c)
    decreases c
  {
    if i < c { GrantedMonotone(window, i, c - 1); }
    else if c > 0 { GrantedMonotone(window, 0, c - 1); }
  }

  /** One more window opens between one packet and a full window, and never past the end. */
  lemma NextBorder(window: int, total: int, c: nat)
    requires window > 0 && Border(window, total, c) < total
    ensures Border(window, total, c) == Granted(window, c)
    ensures Border(window, total, c + 1) == Min(Border(window, total, c) + window, total) > Border(window, total, c)
    ensures Border(window, total, c + 1) - Border(window, total, c) == Min(window, total - Granted(window, c))
  {
  }

  /** The border reaches the end of the message with exactly `Count` windows. */
  lemma WindowCount(window: int, total: int, c: nat)
    requires window > 0 && 1 <= c && Border(window, total, c - 1) < total
    ensures c <= Count(window, total)
    ensures Border(window, total, c) == total <==> c == Count(window, total)
  {
    GrantedIsProduct(window, c - 1);
    GrantedIsProduct(window, c);
    CeilDiv(total, window, c);
  }
}
