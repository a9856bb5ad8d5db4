/** Rings addressed by ever-growing positions.

    The driver keeps 32-bit positions and reduces them with a mask; position `p` of a
    ring of `n` entries lives in slot `p % n`, and `Lap` is the parity of the number of
    times the ring has been walked before `p` (the "owner" bit of a completion queue).
 */
module Ring {

  /** The entry of ring `b` at position `p`. */
  function At<T>(b: seq<T>, p: nat): T
    requires |b| > 0
  {
    b[p % |b|]
  }

  lemma AtSlot<T>(b: seq<T>, p: nat)
    requires |b| > 0
    ensures At(b, p) == b[p % |b|]
  {
  }

  /** The lap parity of position `p`: `!!(p & n)` for a power of two `n`. */
  predicate Lap(p: nat, n: nat)
    requires n > 0
  {
    (p / n) % 2 == 1
  }

  /** Slot `slot` of a ring of `n` entries is the place of position `p`. */
  predicate IsSlot(slot: nat, p: nat, n: nat)
    requires n > 0
  {
    slot == p % n
  }

  /** A multiple of `n` strictly between `-n` and `n` is zero. */
  lemma SmallMultiple(d: int, n: int)
    requires n > 0
    ensures -n < d * n < n ==> d == 0
  {
    if d >= 1 { assert d * n == n + (d - 1) * n; }
    if d <= -1 { assert d * n == -n + (d + 1) * n; }
  }

  lemma DivUnique(a: nat, n: nat, q: nat, r: nat)
    requires n > 0 && r < n && a == q * n + r
    ensures a / n == q && a % n == r
  {
    assert a == (a / n) * n + a % n;
    assert (a / n - q) * n == r - a % n;
    SmallMultiple(a / n - q, n);
  }

  lemma SlotInjective(n: nat, p: nat, q: nat)
    requires n > 0 && p < q < p + n
    ensures p % n != q % n
  {
    assert p == (p / n) * n + p % n && q == (q / n) * n + q % n;
    assert (q / n - p / n) * n == q - p - (q % n - p % n);
    SmallMultiple(q / n - p / n, n);
  }

  /** Writing position `x` changes that position and no other of a window of `|b|`. */
  lemma UpdateAt<T>(b: seq<T>, x: nat, v: T, lo: nat)
    requires |b| > 0 && lo <= x < lo + |b|
    ensures var b' := b[x % |b| := v];
            forall p: nat :: lo <= p < lo + |b| ==> At(b', p) == if p == x then v else At(b, p)
  {
    forall p: nat | lo <= p < lo + |b| && p != x
      ensures p % |b| != x % |b|
    {
      if p < x { SlotInjective(|b|, p, x); } else { SlotInjective(|b|, x, p); }
    }
  }

  /** A position one lap later is the same slot with the opposite lap parity. */
  lemma NextLap<T>(b: seq<T>, p: nat)
    requires |b| > 0
    ensures At(b, p + |b|) == At(b, p)
    ensures Lap(p + |b|, |b|) == !Lap(p, |b|)
  {
    OneLap(p, |b|);
  }

  lemma OneLap(p: nat, n: nat)
    requires n > 0
    ensures (p + n) / n == p / n + 1 && (p + n) % n == p % n
  {
    MulSucc(p / n, n);
    DivUnique(p + n, n, p / n + 1, p % n);
  }

  /** The slot and lap of the `k`-th position after `p`, without and with wrap-around. */
  lemma SlotAfter(p: nat, n: nat, k: nat)
    requires n > 0 && k < n
    ensures p % n + k < n ==> (p + k) % n == p % n + k && Lap(p + k, n) == Lap(p, n)
    ensures p % n + k >= n ==> (p + k) % n == p % n + k - n && Lap(p + k, n) == !Lap(p, n)
  {
    var q, r := p / n, p % n;
    assert p == q * n + r;
    if r + k < n {
      DivUnique(p + k, n, q, r + k);
    } else {
      MulSucc(q, n);
      DivUnique(p + k, n, q + 1, r + k - n);
    }
  }

  lemma MulSucc(q: nat, n: nat)
    ensures (q + 1) * n == q * n + n && n * (q + 1) == n * q + n
  {
  }

  /** What two rings agree on, they agree on one lap later and one lap earlier. */
  lemma SameNextLap<T>(b: seq<T>, b': seq<T>, lo: nat, hi: nat)
    requires 0 < |b| == |b'|
    requires (forall p: nat :: lo <= p < hi ==> At(b', p) == At(b, p))
          || (forall p: nat :: lo + |b| <= p < hi + |b| ==> At(b', p) == At(b, p))
    ensures forall p: nat :: lo <= p < hi ==> At(b', p) == At(b, p)
    ensures forall p: nat :: lo + |b| <= p < hi + |b| ==> At(b', p) == At(b, p)
  {
    forall p: nat | lo <= p < hi
      ensures At(b', p) == At(b, p)
    {
      NextLap(b, p);
      NextLap(b', p);
    }
    forall p: nat | lo + |b| <= p < hi + |b|
      ensures At(b', p) == At(b, p)
    {
      NextLap(b, p - |b|);
      NextLap(b', p - |b|);
    }
  }

  /** A counter that wraps at a multiple of the ring size names the same slot. */
  lemma ModMod(p: nat, n: nat, m: nat, w: nat)
    requires n > 0 && w > 0 && w == n * m
    ensures (p % w) % n == p % n
  {
    var t, r := p / w, p % w;
    var u, v := r / n, r % n;
    ModModParts(p, n, m, t, u, v);
  }

  lemma ModModParts(p: nat, n: nat, m: nat, t: nat, u: nat, v: nat)
    requires v < n && p == t * (n * m) + u * n + v
    ensures p % n == v
  {
    Regroup(t, u, n, m);
    DivUnique(p, n, t * m + u, v);
  }

  lemma Regroup(t: nat, u: nat, n: nat, m: nat)
    ensures (t * m + u) * n == t * (n * m) + u * n
  {
  }

  /** The driver's positions are 32-bit counters. For a ring of 2^k entries, k < 32, the
      slot and the lap parity of a wrapped counter are those of the unwrapped position. */
  lemma CounterWrap(p: nat, n: nat, m: nat)
    requires n > 0 && m > 0 && 0x1_0000_0000 == 2 * n * m
    ensures (p % 0x1_0000_0000) % n == p % n
    ensures Lap(p % 0x1_0000_0000, n) == Lap(p, n)
  {
    var t, r := p / 0x1_0000_0000, p % 0x1_0000_0000;
    WholeLaps(p, n, m, t, r);
  }

  lemma WholeLaps(p: nat, n: nat, m: nat, t: nat, r: nat)
    requires n > 0 && p == t * (2 * n * m) + r
    ensures p % n == r % n && (p / n) % 2 == (r / n) % 2
  {
    var u, v := r / n, r % n;
    Doubled(n, m);
    Regroup(t, u, n, 2 * m);
    DivUnique(p, n, t * (2 * m) + u, v);
    SameParity(t, m, u);
  }

  lemma Doubled(n: nat, m: nat)
    ensures 2 * n * m == n * (2 * m)
  {
  }

  lemma SameParity(t: nat, m: nat, u: nat)
    ensures (t * (2 * m) + u) % 2 == u % 2
  {
    assert t * (2 * m) == 2 * (t * m);
  }

  lemma ConcatAssoc<T>(a: seq<T>, b: seq<T>, c: seq<T>)
    ensures a + (b + c) == (a + b) + c
  {
  }

  lemma TakeMore<T>(s: seq<T>, i: nat)
    requires i < |s|
    ensures s[..i + 1] == s[..i] + [s[i]]
  {
  }
}
