/** Small helpers shared by every module. */
module Common {
  datatype Option<+T> = None | Some(value: T)

  function Min(a: int, b: int): int {
    if a <= b then a else b
  }

  function Max(a: int, b: int): int {
    if a <= b then b else a
  }

  /** The entry stored under a key, if any. */
  function Get<K, V>(m: map<K, V>, k: K): Option<V> {
    if k in m then Some(m[k]) else None
  }

  /** Stores an entry, or removes it when there is none. */
  function Put<K, V>(m: map<K, V>, k: K, o: Option<V>): map<K, V> {
    if o.Some? then m[k := o.value] else m - {k}
  }

  predicate IsByte(x: int) {
    0 <= x < 256
  }

  predicate IsBytes(s: seq<int>) {
    forall i :: 0 <= i < |s| ==> IsByte(s[i])
  }

  /** All entries of `keys`, each exactly once. */
  ghost predicate Enumerates(keys: seq<int>, s: set<int>) {
    && (forall k :: k in s <==> k in keys)
    && (forall i :: 0 <= i < |keys| ==> keys[i] in s)
    && (forall i, j :: 0 <= i < j < |keys| ==> keys[i] != keys[j])
  }

  /** The keys of a Python dictionary as a list; the order is left open. */
  method ListKeys(s: set<int>) returns (keys: seq<int>)
    ensures Enumerates(keys, s)
  {
    keys := [];
    var rest := s;
    while true
      invariant rest <= s
      invariant forall k :: k in keys <==> k in s && k !in rest
      invariant forall i, j :: 0 <= i < j < |keys| ==> keys[i] != keys[j]
      decreases rest
    {
      if k :| k in rest {
        keys := keys + [k];
        rest := rest - {k};
      } else {
        break;
      }
    }
  }

  lemma {:induction false} CountKeys(keys: seq<int>, s: set<int>)
    requires Enumerates(keys, s)
    ensures |keys| == |s|
  {
    if keys == [] {
      forall k ensures k !in s {
        assert k in s <==> k in keys;
      }
      assert s == {};
    } else {
      var rest, last := keys[..|keys| - 1], keys[|keys| - 1];
      forall k ensures k in s - {last} <==> k in rest {
        assert k in keys <==> k in rest || k == last;
      }
      CountKeys(rest, s - {last});
    }
  }

  /** What moves from the keys to come to the keys done. */
  lemma NextKey(todo: seq<int>, i: nat)
    requires i < |todo| && (forall x, y :: 0 <= x < y < |todo| ==> todo[x] != todo[y])
    ensures todo[..i + 1][..i] == todo[..i]
    ensures forall k :: k in todo[..i + 1] <==> k == todo[i] || k in todo[..i]
    ensures forall k :: k in todo[i..] <==> k == todo[i] || k in todo[i + 1..]
    ensures todo[i] !in todo[..i] && todo[i] !in todo[i + 1..]
  {
  }

  lemma LowByte(x: int, b: int)
    requires IsByte(b)
    ensures (x * 0x100 + b) / 0x100 == x && (x * 0x100 + b) % 0x100 == b
  {
  }

  lemma ByteSteps(h: int)
    ensures h / 0x1_0000 == h / 0x100 / 0x100 && h / 0x100_0000 == h / 0x1_0000 / 0x100
  {
  }

  lemma MulCancel(x: int, y: int, g: int)
    requires 0 < g && x * g < y * g
    ensures x < y
  {
  }

  /** Where a multiple of `g` first reaches `n`. */
  lemma CeilDiv(n: int, g: int, c: int)
    requires 1 <= g && (c - 1) * g < n
    ensures c <= (n + g - 1) / g
    ensures c * g >= n ==> c == (n + g - 1) / g
    ensures c * g < n ==> c < (n + g - 1) / g
  {
    var w := (n + g - 1) / g;
    assert w * g <= n + g - 1 < w * g + g;
    assert (w + 1) * g == w * g + g && (c + 1) * g == c * g + g == (c - 1) * g + 2 * g;
    MulCancel(c, w + 1, g);
    if c * g >= n { MulCancel(w, c + 1, g); } else { MulCancel(c + 1, w + 1, g); }
  }

  lemma MulMono(x: int, y: int, g: int)
    requires x <= y && 0 <= g
    ensures x * g <= y * g
  {
  }

  lemma DivUnique(x: int, d: int, q: int, r: int)
    requires 0 <= r < d && x == d * q + r
    ensures x / d == q && x % d == r
  {
    var q1, r1 := x / d, x % d;
    assert q1 * d + r1 == q * d + r;
    Leading(q1, q, d, r1, r);
  }

  lemma MulDiff(a: int, b: int, m: int)
    requires a < b && 0 < m
    ensures a * m + m <= b * m
  {
    MulMono(a + 1, b, m);
    assert (a + 1) * m == a * m + m;
  }

  /** The leading digit decides, the rest only among equals. */
  lemma Leading(a: int, b: int, m: int, x: int, y: int)
    requires 0 <= x < m && 0 <= y < m
    ensures a * m + x < b * m + y <==> a < b || (a == b && x < y)
    ensures a * m + x == b * m + y <==> a == b && x == y
  {
    if a < b { MulDiff(a, b, m); }
    if a > b { MulDiff(b, a, m); }
  }

  lemma ConsTake<T>(f: T, more: seq<T>, n: nat)
    requires n <= |more|
    ensures ([f] + more)[..n + 1] == [f] + more[..n]
  {
  }

  lemma Associate<T>(a: seq<T>, b: seq<T>, c: seq<T>)
    ensures a + b + c == a + (b + c)
  {
  }
}
