/** Masking with a power of two, as the range allocator does it. */
module Masks {
  import opened Common

  /** Bitwise and, or. */
  function And(a: nat, b: nat): nat {
    if a == 0 || b == 0 then 0 else 2 * And(a / 2, b / 2) + (if a % 2 == 1 && b % 2 == 1 then 1 else 0)
  }

  function Or(a: nat, b: nat): nat
    decreases a + b
  {
    if a == 0 then b else if b == 0 then a else 2 * Or(a / 2, b / 2) + (if a % 2 == 1 || b % 2 == 1 then 1 else 0)
  }

  /** Bit `k` of a number. */
  predicate BitOf(a: nat, k: nat) {
    if k == 0 then a % 2 == 1 else BitOf(a / 2, k - 1)
  }

  lemma {:induction false} NoBits(k: nat)
    ensures !BitOf(0, k)
  {
    if k > 0 { NoBits(k - 1); }
  }

  lemma EvenAnd(a: nat, b: nat)
    requires a % 2 == 0
    ensures And(a, b) % 2 == 0
  {
    if a != 0 && b != 0 {
      AndStep(a, b);
      hide And;
      TwiceEven(And(a / 2, b / 2));
    }
  }

  lemma AndStep(a: nat, b: nat)
    requires a % 2 == 0 && a != 0 && b != 0
    ensures And(a, b) == 2 * And(a / 2, b / 2)
  {
  }

  lemma TwiceEven(n: nat)
    ensures 2 * n % 2 == 0
  {
  }

  /** The two operations work bit by bit. */
  lemma {:induction false} BitByBit(a: nat, b: nat, k: nat)
    ensures BitOf(And(a, b), k) <==> BitOf(a, k) && BitOf(b, k)
    ensures BitOf(Or(a, b), k) <==> BitOf(a, k) || BitOf(b, k)
  {
    NoBits(k);
    if k > 0 {
      BitByBit(a / 2, b / 2, k - 1);
      assert And(a, b) / 2 == And(a / 2, b / 2) && Or(a, b) / 2 == Or(a / 2, b / 2);
    }
  }

  /** A number is its bits. */
  lemma {:induction false} BitsTell(a: nat, b: nat)
    requires forall k: nat :: BitOf(a, k) == BitOf(b, k)
    ensures a == b
    decreases a + b
  {
    if a + b > 0 {
      assert BitOf(a, 0) == BitOf(b, 0);
      forall k: nat
        ensures BitOf(a / 2, k) == BitOf(b / 2, k)
      {
        assert BitOf(a, k + 1) == BitOf(b, k + 1);
      }
      BitsTell(a / 2, b / 2);
    }
  }

  /** Masking with `n - 1` leaves every smaller number alone exactly when `n` is a power of two. */
  lemma MaskExact(n: nat, mask: nat)
    requires n == mask + 1
    ensures (forall x: nat :: x < n ==> And(x, mask) == x) <==> PowerOfTwo(n)
  {
    if PowerOfTwo(n) {
      forall x: nat | x < n
        ensures And(x, mask) == x
      {
        MaskKeeps(x, n);
      }
    } else {
      var x := LostBit(n);
      assert And(x, mask) != x;
    }
  }

  lemma {:induction false} MaskKeeps(x: nat, n: nat)
    requires PowerOfTwo(n) && x < n
    ensures And(x, n - 1) == x
  {
    if n > 1 {
      MaskKeeps(x / 2, n / 2);
      assert (n - 1) / 2 == n / 2 - 1;
    }
  }

  lemma {:induction false} MaskDrops(n: nat)
    requires PowerOfTwo(n)
    ensures And(n, n - 1) == 0
  {
    if n > 1 {
      MaskDrops(n / 2);
      assert (n - 1) / 2 == n / 2 - 1;
    }
  }

  lemma {:induction false} AndSelf(n: nat)
    ensures And(n, n) == n
  {
    if n > 0 { AndSelf(n / 2); }
  }

  /** The mask `n - 1` takes all of `n` away exactly when `n` is a power of two. */
  lemma {:induction false} MaskZero(n: nat)
    requires n > 0
    ensures And(n, n - 1) == 0 <==> PowerOfTwo(n)
  {
    if PowerOfTwo(n) {
      MaskDrops(n);
    } else if n % 2 == 1 {
      AndSelf(n / 2);
      assert (n - 1) / 2 == n / 2;
    } else {
      MaskZero(n / 2);
      assert (n - 1) / 2 == n / 2 - 1;
    }
  }

  lemma {:induction false} AndBelow(a: nat, b: nat)
    ensures And(a, b) <= b
  {
    if a != 0 && b != 0 { AndBelow(a / 2, b / 2); }
  }

  lemma Doubled(n: nat)
    requires n > 0
    ensures And(2 * n, 2 * n - 1) == 2 * And(n, n - 1)
  {
    assert (2 * n) / 2 == n && (2 * n - 1) / 2 == n - 1;
  }

  /** What the mask leaves of a multiple of 64 that is no power of two: some of it, and at least 64 less. */
  lemma MaskLeaves(n: nat)
    requires n > 0 && n % 64 == 0 && !PowerOfTwo(n)
    ensures 0 < And(n, n - 1) <= n - 64
  {
    hide And, PowerOfTwo;
    MaskZero(n);
    var m := n / 64;
    Doubled(m);
    Doubled(2 * m);
    Doubled(4 * m);
    Doubled(8 * m);
    Doubled(16 * m);
    Doubled(32 * m);
    AndBelow(m, m - 1);
  }

  /** A number below `n` that loses a bit under the mask `n - 1`. */
  lemma {:induction false} LostBit(n: nat) returns (x: nat)
    requires n > 0 && !PowerOfTwo(n)
    ensures x < n && And(x, n - 1) == 0 && x > 0
  {
    if n % 2 == 1 {
      x := 1;
      assert And(1, n - 1) == 2 * And(0, (n - 1) / 2) + (n - 1) % 2;
    } else {
      var y := LostBit(n / 2);
      x := 2 * y;
      assert (n - 1) / 2 == n / 2 - 1;
      assert x / 2 == y && x % 2 == 0;
    }
  }
}
