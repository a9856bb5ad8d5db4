/** Picking the flagged indices of a flag array, as the erasure-coding calls describe
    the blocks they concern. */
module Selection {

  /** The flagged indices in `[lo, hi)`, in order. */
  function Sel(flags: seq<bool>, lo: nat, hi: nat): (r: seq<nat>)
    requires hi <= |flags|
    ensures forall x :: 0 <= x < |r| ==> lo <= r[x] < hi && flags[r[x]]
  {
    if hi <= lo then [] else Sel(flags, lo, hi - 1) + if flags[hi - 1] then [hi - 1] else []
  }

  lemma {:induction false} SelConcat(flags: seq<bool>, lo: nat, mid: nat, hi: nat)
    requires lo <= mid <= hi <= |flags|
    ensures Sel(flags, lo, hi) == Sel(flags, lo, mid) + Sel(flags, mid, hi)
  {
    if mid < hi {
      SelConcat(flags, lo, mid, hi - 1);
    }
  }

  /** Indices are listed in increasing order, each once, and none is left out. */
  lemma {:induction false} SelComplete(flags: seq<bool>, lo: nat, hi: nat)
    requires hi <= |flags|
    ensures forall x, y :: 0 <= x < y < |Sel(flags, lo, hi)| ==> Sel(flags, lo, hi)[x] < Sel(flags, lo, hi)[y]
    ensures forall i: nat :: lo <= i < hi && flags[i] ==> i in Sel(flags, lo, hi)
  {
    if lo < hi {
      SelComplete(flags, lo, hi - 1);
      if flags[hi - 1] {
        assert Sel(flags, lo, hi)[|Sel(flags, lo, hi - 1)|] == hi - 1;
      }
      forall i: nat | lo <= i < hi - 1 && flags[i]
        ensures i in Sel(flags, lo, hi)
      {
        assert i in Sel(flags, lo, hi - 1);
      }
    }
  }

  /** Flag `i` is the next one selected after those below it. */
  lemma SelNext(flags: seq<bool>, lo: nat, i: nat, hi: nat)
    requires lo <= i < hi <= |flags|
    ensures |Sel(flags, lo, i + 1)| <= |Sel(flags, lo, hi)|
    ensures |Sel(flags, lo, i + 1)| == |Sel(flags, lo, i)| + if flags[i] then 1 else 0
    ensures flags[i] ==> Sel(flags, lo, hi)[|Sel(flags, lo, i)|] == i
  {
    SelConcat(flags, lo, i + 1, hi);
  }

  lemma {:induction false} SelCount(flags: seq<bool>, lo: nat, hi: nat)
    requires lo <= hi <= |flags|
    ensures |Sel(flags, lo, hi)| <= hi - lo
  {
    if lo < hi { SelCount(flags, lo, hi - 1); }
  }

  lemma SelEmpty(flags: seq<bool>, lo: nat)
    requires lo <= |flags|
    ensures Sel(flags, lo, lo) == []
  {
  }

  /** `j` brought into the window `[start, end + 1]`. */
  ghost function Clip(j: nat, start: nat, end: nat): nat {
    if j < start then start else if j > end then end + 1 else j
  }

  lemma SelStep(flags: seq<bool>, lo: nat, i: nat)
    requires lo <= i < |flags|
    ensures Sel(flags, lo, i + 1) == Sel(flags, lo, i) + if flags[i] then [i] else []
  {
  }

  lemma SelClip(flags: seq<bool>, start: nat, end: nat, i: nat)
    requires start <= end < |flags| && i < |flags|
    ensures Sel(flags, start, Clip(i + 1, start, end)) ==
            Sel(flags, start, Clip(i, start, end)) + if start <= i <= end && flags[i] then [i] else []
  {
  }
}
