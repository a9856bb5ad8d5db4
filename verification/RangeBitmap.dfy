/** Allocating ranges of chunks in a bitmap. */
module RangeBitmaps {
  import opened Common
  import Ring
  import opened Masks
  import opened Words

  const W: nat := 32

  predicate Aligned(s: nat, al: nat)
    requires al > 0
  {
    s % al == 0
  }

  /** Rounding up to an alignment (a power of two in the driver). */
  function AlignUp(x: nat, al: nat): nat
    requires al > 0
  {
    (x + al - 1) / al * al
  }

  lemma NoneBetween(s: nat, al: nat, x: nat)
    requires al > 0 && Aligned(s, al) && s < x < s + al
    ensures !Aligned(x, al)
  {
    var q := s / al;
    assert s == q * al;
    Ring.DivUnique(x, al, q, x - s);
  }

  lemma NextAligned(s: nat, al: nat)
    requires al > 0 && Aligned(s, al)
    ensures Aligned(s + al, al)
  {
    var q := s / al;
    Ring.MulSucc(q, al);
    Ring.DivUnique(s + al, al, q + 1, 0);
  }

  lemma AlignUpMeans(x: nat, al: nat)
    requires al > 0
    ensures x <= AlignUp(x, al) && Aligned(AlignUp(x, al), al)
    ensures forall y: nat :: x <= y < AlignUp(x, al) ==> !Aligned(y, al)
  {
    var q := (x + al - 1) / al;
    assert x + al - 1 == q * al + (x + al - 1) % al;
    Ring.DivUnique(q * al, al, q, 0);
    if q > 0 {
      Ring.MulSucc(q - 1, al);
      Ring.DivUnique((q - 1) * al, al, q - 1, 0);
      forall y: nat | x <= y < AlignUp(x, al)
        ensures !Aligned(y, al)
      {
        NoneBetween((q - 1) * al, al, y);
      }
    }
  }

  /** A place for `len` chunks: aligned, inside the first `n` bits, its first bit and all its bits clear. */
  ghost predicate Suitable(t: seq<Word>, s: nat, n: nat, len: nat, al: nat)
    requires al > 0
  {
    && Aligned(s, al) && s < n && s + len <= n && !Bit(t, W, s)
    && forall i: nat :: s <= i < s + len ==> !Bit(t, W, i)
  }

  ghost predicate NoneSuitable(t: seq<Word>, lo: nat, hi: nat, n: nat, len: nat, al: nat)
    requires al > 0
  {
    forall s: nat :: lo <= s < hi ==> !Suitable(t, s, n, len, al)
  }

  /** The least suitable place from `start` on, -1 if there is none. */
  method FindAlignedRange(t: seq<Word>, start: nat, nbits: nat, len: nat, al: nat) returns (r: int)
    requires al > 0
    ensures r == -1 || start <= r < nbits
    ensures r == -1 ==> NoneSuitable(t, start, nbits, nbits, len, al)
    ensures r >= 0 ==> Suitable(t, r, nbits, len, al) && NoneSuitable(t, start, r, nbits, len, al)
  {
    hide Bit, Aligned, AlignUp;
    var s := AlignUp(start, al);
    AlignUpMeans(start, al);
    while true
      invariant start <= s && Aligned(s, al) && NoneSuitable(t, start, s, nbits, len, al)
      decreases if s < nbits then nbits - s else 0
    {
      s := SkipSet(t, start, s, nbits, len, al);
      if s >= nbits { return -1; }
      var end := s + len;
      if end > nbits { return -1; }
      var i := s + 1;
      while i < end && !Bit(t, W, i)
        invariant s < i && (i <= end || i == s + 1) && forall j: nat :: s <= j < i ==> !Bit(t, W, j)
      {
        i := i + 1;
      }
      if i >= end { return s; }
      BlockedUpTo(t, start, s, i, nbits, len, al);
      AlignUpMeans(i + 1, al);
      s := AlignUp(i + 1, al);
    }
  }

  /** Steps over set bits, an alignment at a time. */
  method SkipSet(t: seq<Word>, ghost start: nat, from: nat, nbits: nat, ghost len: nat, al: nat) returns (s: nat)
    requires al > 0 && start <= from && Aligned(from, al) && NoneSuitable(t, start, from, nbits, len, al)
    ensures from <= s && Aligned(s, al) && NoneSuitable(t, start, s, nbits, len, al)
    ensures s < nbits ==> !Bit(t, W, s)
  {
    hide Bit, Aligned;
    s := from;
    while s < nbits && Bit(t, W, s)
      invariant from <= s && Aligned(s, al) && NoneSuitable(t, start, s, nbits, len, al)
      decreases if s < nbits then nbits - s else 0
    {
      forall x: nat | s < x < s + al
        ensures !Aligned(x, al)
      {
        NoneBetween(s, al, x);
      }
      NextAligned(s, al);
      s := s + al;
    }
  }

  /** A set bit inside the range rules out every start up to it. */
  lemma BlockedUpTo(t: seq<Word>, start: nat, s: nat, i: nat, nbits: nat, len: nat, al: nat)
    requires al > 0 && NoneSuitable(t, start, s, nbits, len, al) && s < i < s + len && Bit(t, W, i)
    ensures NoneSuitable(t, start, i + 1, nbits, len, al)
  {
  }

  /** The bits in `[lo, hi)` have the value `v` and the others are as before. */
  ghost predicate Ranged(t: seq<Word>, t': seq<Word>, lo: nat, hi: nat, v: bool) {
    && Shaped(t', W) && |t'| == |t|
    && forall j: nat :: Bit(t', W, j) == if lo <= j < hi then v else Bit(t, W, j)
  }

  method PutRange(t: seq<Word>, lo: nat, cnt: nat, v: bool, ghost n: nat) returns (t': seq<Word>)
    requires Shaped(t, W) && lo + cnt <= n <= |t| * W
    requires forall j: nat :: lo <= j < lo + cnt ==> Bit(t, W, j) == !v
    ensures Ranged(t, t', lo, lo + cnt, v)
    ensures Clears(t', W, n) == Clears(t, W, n) + (if v then 0 else cnt) - (if v then cnt else 0)
  {
    hide Bit, Clears, Put;
    t' := t;
    for i := 0 to cnt
      invariant Ranged(t, t', lo, lo + i, v)
      invariant Clears(t', W, n) == Clears(t, W, n) + (if v then 0 else i) - (if v then i else 0)
    {
      PutBit(t', W, lo + i, v);
      ClearsPut(t', W, lo + i, v, n);
      t' := Put(t', W, lo + i, v);
    }
  }

  class Bitmap {
    var last: nat
    var top: nat
    const max: nat
    var avail: nat
    const mask: nat
    var table: seq<Word>

    ghost predicate Valid()
      reads this
    {
      && 0 < max <= |table| * W && mask == max - 1 && last < max
      && Shaped(table, W) && avail == Clears(table, W, max)
    }

    constructor (num: nat)
      requires num > 0
      ensures Valid() && max == avail == num && top == 0 && last == 0 && forall i: nat :: !Bit(table, W, i)
    {
      last, top, max, avail, mask := 0, 0, num, num, num - 1;
      table := seq((num + W - 1) / W, _ => seq(W, _ => false));
      new;
      ClearsBounds(table, W, max);
    }

    /** The lowest clear bit. */
    method Alloc() returns (obj: int, ghost s: nat)
      requires Valid()
      modifies `last, `avail, `table
      ensures Valid()
      ensures obj == -1 ==> forall i: nat :: i < max ==> Bit(table, W, i)
      ensures obj == -1 ==> table == old(table) && avail == old(avail) && last == old(last)
      ensures obj != -1 ==>
        obj == Or(s, top) && s < max && !old(Bit(table, W, s)) && (forall i: nat :: i < s ==> old(Bit(table, W, i)))
      ensures obj != -1 ==> Ranged(old(table), table, s, s + 1, true) && avail == old(avail) - 1
      ensures obj != -1 ==> last == if s + 1 == max then 0 else s + 1
    {
      hide Bit, Clears, Put, Or;
      var o := FindFirstZeroBit(table, max);
      if o < max {
        PutBit(table, W, o, true);
        ClearsPut(table, W, o, true, max);
        table := Put(table, W, o, true);
        last := o + 1;
        if last == max { last := 0; }
        obj, s := Or(o, top), o;
        avail := avail - 1;
      } else {
        obj, s := -1, 0;
      }
    }

    /** A range of `cnt` chunks. Where it is: the lowest clear bit for a single chunk; otherwise the least
        suitable place from `last` on or, without one, from the start. */
    method AllocRange(cnt: nat, al: nat) returns (obj: int, ghost s: nat)
      requires Valid() && al > 0
      modifies `last, `avail, `table, `top
      ensures Valid()
      ensures top ==
        if !(cnt == 1 && al == 1) && cnt <= max && old(NoneSuitable(table, last, max, max, cnt, al))
        then And(old(top) + max, mask) else old(top)
      ensures obj == -1 <==> old(NoneSuitable(table, 0, max, max, cnt, al))
      ensures obj == -1 ==> table == old(table) && avail == old(avail) && last == old(last)
      ensures obj != -1 ==> obj == Or(s, top) && old(Suitable(table, s, max, cnt, al))
      ensures obj != -1 ==> Ranged(old(table), table, s, s + cnt, true) && avail == old(avail) - cnt
      ensures obj != -1 && cnt == 1 && al == 1 ==> old(NoneSuitable(table, 0, s, max, cnt, al))
      ensures obj != -1 && cnt == 1 && al == 1 ==> last == if s + 1 == max then 0 else s + 1
      ensures obj != -1 && !(cnt == 1 && al == 1) ==>
        if old(last) <= s then old(NoneSuitable(table, last, s, max, cnt, al))
        else old(NoneSuitable(table, last, max, max, cnt, al) && NoneSuitable(table, 0, s, max, cnt, al))
      ensures obj != -1 && !(cnt == 1 && al == 1) ==>
        last == if s != old(last) then old(last) else if s + cnt < max then s + cnt else 0
    {
      hide Bit, Clears, Put, Or, And, Aligned;
      if cnt == 1 && al == 1 {
        SingleSuitable(table, max);
        obj, s := Alloc();
        return;
      }
      if cnt > max { return -1, 0; }
      var o := FindAlignedRange(table, last, max, cnt, al);
      if o == -1 {
        top := And(top + max, mask);
        o := FindAlignedRange(table, 0, max, cnt, al);
      }
      if o == -1 { return -1, 0; }
      s := o;
      SuitableClear(table, s, max, cnt, al);
      table := PutRange(table, o, cnt, true, max);
      if o == last {
        last := o + cnt;
        if last >= max { last := 0; }
      }
      avail := avail - cnt;
      obj := Or(o, top);
    }

    method FreeRange(obj: nat, cnt: nat)
      requires Valid() && And(obj, max - 1) + cnt <= max
      requires forall j: nat :: And(obj, max - 1) <= j < And(obj, max - 1) + cnt ==> Bit(table, W, j)
      modifies `last, `avail, `table, `top
      ensures Valid() && top == And(old(top) + max, mask)
      ensures Ranged(old(table), table, And(obj, max - 1), And(obj, max - 1) + cnt, false)
      ensures avail == old(avail) + cnt
      ensures last == if And(obj, max - 1) < old(last) then And(obj, max - 1) else old(last)
    {
      hide Bit, Clears, And;
      var o := And(obj, max - 1);
      table := PutRange(table, o, cnt, false, max);
      last := if o < last then o else last;
      top := And(top + max, mask);
      avail := avail + cnt;
    }
  }

  lemma SingleSuitable(t: seq<Word>, n: nat)
    ensures forall s: nat :: s < n ==> Suitable(t, s, n, 1, 1) == !Bit(t, W, s)
  {
    hide Bit;
  }

  lemma SuitableClear(t: seq<Word>, s: nat, n: nat, len: nat, al: nat)
    requires al > 0 && Suitable(t, s, n, len, al)
    ensures s + len <= n && forall i: nat :: s <= i < s + len ==> !Bit(t, W, i)
  {
  }

  // ---------------------------------------------------------------- regions whose size is not a power of two

  /** What is returned for a place is its start, and freeing it finds the place again, for every place exactly when
      `top` is zero and the size a power of two. */
  lemma StartsExact(max: nat, top: nat)
    requires max > 0
    ensures (forall s: nat :: s < max ==> Or(s, top) == s && And(s, max - 1) == s) <==> top == 0 && PowerOfTwo(max)
  {
    hide And, PowerOfTwo;
    MaskExact(max, max - 1);
    if top != 0 {
      assert Or(0, top) != 0;
    } else {
      forall s: nat | s < max
        ensures Or(s, top) == s
      {
        OrZero(s);
      }
      assert forall s: nat :: s < max ==> Or(s, top) == s;
      if !PowerOfTwo(max) {
        var s: nat :| s < max && And(s, max - 1) != s;
        assert Or(s, top) == s;
      }
    }
  }

  lemma OrZero(s: nat)
    ensures Or(s, 0) == s
  {
  }
}
