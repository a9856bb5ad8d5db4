/** Copies into, out of and across the end of the send ring. A pointer that has run up to
    the end of the ring continues at its start; each copy is shown to be the one that an
    endless memory would give.
 */
module WrapCopies {
  import opened Common
  import opened Ring
  import opened SqSizing
  import opened SendQueues

  /** `slot` is a pointer to position `p`; it may stand at the end instead of the start. */
  predicate PointsTo(slot: nat, p: nat, n: nat)
    requires n > 0
  {
    IsSlot(slot, p, n) || (slot == n && IsSlot(0, p, n))
  }

  /** From `b` to `b'`, position `p` on holds `data`; the rest of the window is unchanged. */
  ghost predicate Wrote<T>(b: seq<T>, b': seq<T>, lo: nat, p: nat, data: seq<T>)
  {
    && 0 < |b| == |b'|
    && (forall q: nat :: p <= q < p + |data| ==> At(b', q) == data[q - p])
    && (forall q: nat :: lo <= q < lo + |b| && !(p <= q < p + |data|) ==> At(b', q) == At(b, q))
  }

  lemma WroteTrans<T>(b: seq<T>, b': seq<T>, b'': seq<T>, lo: nat, p: nat, d: seq<T>, d': seq<T>)
    requires Wrote(b, b', lo, p, d) && Wrote(b', b'', lo, p + |d|, d')
    requires lo <= p && p + |d| + |d'| <= lo + |b|
    ensures Wrote(b, b'', lo, p, d + d')
  {
  }

  /** memcpy to a place that does not cross the end. */
  method Memcpy<T>(ring: array<T>, slot: nat, data: seq<T>, ghost lo: nat, ghost p: nat)
    requires 0 < ring.Length && slot + |data| <= ring.Length
    requires data != [] ==> IsSlot(slot, p, ring.Length)
    requires lo <= p && p + |data| <= lo + ring.Length
    modifies ring
    ensures Wrote(old(ring[..]), ring[..], lo, p, data)
  {
    hide At;
    for i := 0 to |data|
      invariant Wrote(old(ring[..]), ring[..], lo, p, data[..i])
    {
      ghost var before := ring[..];
      SlotAfter(p, ring.Length, i);
      ring[slot + i] := data[i];
      assert ring[..] == before[(p + i) % ring.Length := data[i]];
      UpdateAt(before, p + i, data[i], lo);
    }
    assert data[..|data|] == data;
  }

  /** memcpy in two parts if it crosses the end; returns the pointer behind the data. */
  method PutWrapped<T>(ring: array<T>, slot: nat, data: seq<T>, ghost lo: nat, ghost p: nat) returns (end: nat)
    requires 0 < ring.Length && PointsTo(slot, p, ring.Length)
    requires lo <= p && p + |data| <= lo + ring.Length
    modifies ring
    ensures Wrote(old(ring[..]), ring[..], lo, p, data) && PointsTo(end, p + |data|, ring.Length)
  {
    var n := ring.Length;
    PointerAfter(slot, p, n, |data|);
    if slot + |data| > n {
      var copy := n - slot;
      Memcpy(ring, slot, data[..copy], lo, p);
      ghost var mid := ring[..];
      Memcpy(ring, 0, data[copy..], lo, p + copy);
      WroteTrans(old(ring[..]), mid, ring[..], lo, p, data[..copy], data[copy..]);
      assert data[..copy] + data[copy..] == data;
      end := |data| - copy;
    } else {
      Memcpy(ring, slot, data, lo, p);
      end := slot + |data|;
    }
  }

  lemma PointerAfter(slot: nat, p: nat, n: nat, len: nat)
    requires n > 0 && len <= n && PointsTo(slot, p, n)
    ensures slot + len > n ==> (p + (n - slot)) % n == 0 && PointsTo(slot + len - n, p + len, n)
    ensures slot + len <= n ==> PointsTo(slot + len, p + len, n)
    ensures slot + len <= n && 0 < len ==> slot == p % n
    ensures slot < n ==> slot == p % n
  {
    if slot == n {
      if len < n { SlotAfter(p, n, len); } else { NextLapSlot(p, n); }
    } else {
      if len < n { SlotAfter(p, n, len); } else { NextLapSlot(p, n); }
      if n - slot < n { SlotAfter(p, n, n - slot); } else { NextLapSlot(p, n); }
    }
  }

  lemma NextLapSlot(p: nat, n: nat)
    requires n > 0
    ensures (p + n) % n == p % n
  {
    MulSucc(p / n, n);
    DivUnique(p + n, n, p / n + 1, p % n);
  }

  /** Inline gather: copies the entries one after the other behind the length word at
      position `p`, around the end of the ring, and fills in the length word. Gives up at
      the entry that exceeds the inline limit. */
  method GatherInline(ring: array<byte>, seg: nat, sges: seq<Sge>, maxInline: nat, ghost lo: nat, ghost p: nat)
    returns (ok: bool, inl: nat)
    requires 0 < ring.Length && IsSlot(seg, p, ring.Length) && seg + 4 <= ring.Length
    requires lo <= p && p + 4 + Total(Copied(sges, 0, maxInline)) <= lo + ring.Length
    modifies ring
    ensures ok <==> Copied(sges, 0, maxInline) == sges
    ensures ok ==> inl == Total(sges)
    ensures ok && 0 < inl ==> Wrote(old(ring[..]), ring[..], lo, p, InlineHeader(inl) + Gather(sges))
    ensures ok && inl == 0 ==> ring[..] == old(ring[..])
    ensures !ok ==> Wrote(old(ring[..]), ring[..], lo, p + 4, Gather(Copied(sges, 0, maxInline)))
  {
    hide At, Total, Gather, InlineHeader, Copied, Wrote, IsSlot;
    inl, ok := GatherBody(ring, seg, sges, maxInline, lo, p);
    if ok && inl > 0 {
      ghost var mid := ring[..];
      Memcpy(ring, seg, InlineHeader(inl), lo, p);
      WroteBefore(old(ring[..]), mid, ring[..], lo, p, InlineHeader(inl), Gather(sges));
    } else if ok {
      assert Gather(sges) == [];
      WroteNothing(old(ring[..]), ring[..], lo, p + 4);
    }
  }

  lemma WroteNothing<T>(b: seq<T>, b': seq<T>, lo: nat, p: nat)
    requires Wrote(b, b', lo, p, [])
    ensures b' == b
  {
    hide At;
    forall k | 0 <= k < |b|
      ensures b'[k] == b[k]
    {
      var r := lo % |b|;
      var d := if r <= k then k - r else k - r + |b|;
      SlotAfter(lo, |b|, d);
      AtSlot(b, lo + d);
      AtSlot(b', lo + d);
    }
  }

  method GatherBody(ring: array<byte>, seg: nat, sges: seq<Sge>, maxInline: nat, ghost lo: nat, ghost p: nat)
    returns (inl: nat, ok: bool)
    requires 0 < ring.Length && IsSlot(seg, p, ring.Length) && seg + 4 <= ring.Length
    requires lo <= p && p + 4 + Total(Copied(sges, 0, maxInline)) <= lo + ring.Length
    modifies ring
    ensures ok <==> Copied(sges, 0, maxInline) == sges
    ensures ok ==> inl == Total(sges)
    ensures Wrote(old(ring[..]), ring[..], lo, p + 4, Gather(Copied(sges, 0, maxInline)))
  {
    hide *;
    var wqe: nat := seg + 4;
    inl, ok := 0, true;
    GatherStart(ring[..], seg, sges, maxInline, lo, p);
    var i := 0;
    while i < |sges|
      invariant 0 <= i <= |sges|
      invariant Gathering(old(ring[..]), ring[..], sges, i, maxInline, lo, p, inl, wqe)
    {
      var data := sges[i].bytes;
      GatherLook(old(ring[..]), ring[..], sges, i, maxInline, lo, p, inl, wqe);
      if inl + |data| > maxInline {
        return inl, false;
      }
      ghost var mid, was := ring[..], wqe;
      wqe := PutWrapped(ring, wqe, data, lo, p + 4 + inl);
      GatherNext(old(ring[..]), mid, ring[..], sges, i, maxInline, lo, p, inl, was, wqe);
      inl := inl + |data|;
      i := i + 1;
    }
    GatherLook(old(ring[..]), ring[..], sges, i, maxInline, lo, p, inl, wqe);
  }

  /** The first `i` entries have been copied, `inl` bytes; `wqe` points behind them. */
  ghost predicate Gathering(b0: seq<byte>, b: seq<byte>, sges: seq<Sge>, i: nat, maxInline: nat, lo: nat, p: nat,
                            inl: nat, wqe: nat)
  {
    && 0 < |b0| == |b| && i <= |sges| && inl == Total(sges[..i]) && PointsTo(wqe, p + 4 + inl, |b|)
    && sges[..i] + Copied(sges[i..], inl, maxInline) == Copied(sges, 0, maxInline)
    && lo <= p && p + 4 + Total(Copied(sges, 0, maxInline)) <= lo + |b|
    && Wrote(b0, b, lo, p + 4, Gather(sges[..i]))
  }

  lemma GatherStart(b: seq<byte>, seg: nat, sges: seq<Sge>, maxInline: nat, lo: nat, p: nat)
    requires 0 < |b| && IsSlot(seg, p, |b|) && seg + 4 <= |b|
    requires lo <= p && p + 4 + Total(Copied(sges, 0, maxInline)) <= lo + |b|
    ensures Gathering(b, b, sges, 0, maxInline, lo, p, 0, seg + 4)
  {
    hide Copied;
    PointerAfter(seg, p, |b|, 4);
    assert sges[..0] == [] && sges[0..] == sges && Total([]) == 0 && Gather([]) == [];
    assert [] + Copied(sges, 0, maxInline) == Copied(sges, 0, maxInline);
  }

  /** What comes next in the gather. */
  lemma GatherLook(b0: seq<byte>, b: seq<byte>, sges: seq<Sge>, i: nat, maxInline: nat, lo: nat, p: nat, inl: nat,
                   wqe: nat)
    requires Gathering(b0, b, sges, i, maxInline, lo, p, inl, wqe)
    ensures i == |sges| ==> Copied(sges, 0, maxInline) == sges && inl == Total(sges)
    ensures i < |sges| && inl + |sges[i].bytes| > maxInline ==> Copied(sges, 0, maxInline) == sges[..i] != sges
    ensures i == |sges| || inl + |sges[i].bytes| > maxInline ==>
      Wrote(b0, b, lo, p + 4, Gather(Copied(sges, 0, maxInline)))
    ensures i < |sges| && inl + |sges[i].bytes| <= maxInline ==>
      PointsTo(wqe, p + 4 + inl, |b|) && lo <= p + 4 + inl && p + 4 + inl + |sges[i].bytes| <= lo + |b|
  {
    hide Copied, Wrote, Gather, Total, PointsTo;
    CopiedNext(sges, i, inl, maxInline);
    assert sges[..|sges|] == sges && sges[..i] + [] == sges[..i];
    if i < |sges| && inl + |sges[i].bytes| <= maxInline {
      GatherMore(sges[..i], sges[i], Copied(sges[i + 1..], inl + |sges[i].bytes|, maxInline));
    }
  }

  lemma GatherNext(b0: seq<byte>, b: seq<byte>, b': seq<byte>, sges: seq<Sge>, i: nat, maxInline: nat, lo: nat, p: nat,
                   inl: nat, wqe: nat, wqe': nat)
    requires Gathering(b0, b, sges, i, maxInline, lo, p, inl, wqe) && i < |sges| && inl + |sges[i].bytes| <= maxInline
    requires Wrote(b, b', lo, p + 4 + inl, sges[i].bytes) && |b'| == |b|
    requires PointsTo(wqe', p + 4 + inl + |sges[i].bytes|, |b|)
    ensures Gathering(b0, b', sges, i + 1, maxInline, lo, p, inl + |sges[i].bytes|, wqe')
  {
    hide Copied, Wrote, Gather, Total, PointsTo;
    var rest := Copied(sges[i + 1..], inl + |sges[i].bytes|, maxInline);
    TakeMore(sges, i);
    assert sges[..i + 1] + rest == Copied(sges, 0, maxInline) by {
      CopiedNext(sges, i, inl, maxInline);
      ConcatAssoc(sges[..i], [sges[i]], rest);
    }
    GatherMore(sges[..i], sges[i], rest);
    ConcatAssoc(sges[..i], [sges[i]], rest);
    WroteTrans(b0, b, b', lo, p + 4, Gather(sges[..i]), sges[i].bytes);
  }

  lemma CopiedNext(sges: seq<Sge>, i: nat, inl: nat, maxInline: nat)
    requires i <= |sges|
    ensures Copied(sges[i..], inl, maxInline) ==
      if i == |sges| || inl + |sges[i].bytes| > maxInline then []
      else [sges[i]] + Copied(sges[i + 1..], inl + |sges[i].bytes|, maxInline)
  {
    if i < |sges| {
      assert sges[i..][0] == sges[i] && sges[i..][1..] == sges[i + 1..];
    }
  }

  lemma GatherMore(done: seq<Sge>, e: Sge, rest: seq<Sge>)
    ensures Total(done + [e]) == Total(done) + |e.bytes| && Gather(done + [e]) == Gather(done) + e.bytes
    ensures Total(done) + |e.bytes| <= Total(done + ([e] + rest))
  {
    GatherConcat(done, [e]);
    GatherConcat(done, [e] + rest);
    assert Gather([e]) == e.bytes + [];
  }

  lemma WroteBefore<T>(b: seq<T>, b': seq<T>, b'': seq<T>, lo: nat, p: nat, d: seq<T>, d': seq<T>)
    requires Wrote(b, b', lo, p + |d|, d') && Wrote(b', b'', lo, p, d)
    requires lo <= p && p + |d| + |d'| <= lo + |b|
    ensures Wrote(b, b'', lo, p, d + d')
  {
  }

  /** The BlueFlame copy: `cnt` blocks from position `p` of the ring, in ring order. */
  method BfCopy<T>(ring: array<T>, start: nat, cnt: nat, ghost p: nat) returns (out: seq<T>)
    requires start < ring.Length && start == p % ring.Length
    ensures |out| == cnt && forall i :: 0 <= i < cnt ==> out[i] == At(ring[..], p + i)
  {
    var src := start;
    out := [];
    for i := 0 to cnt
      invariant src < ring.Length && src == (p + i) % ring.Length
      invariant |out| == i && forall k :: 0 <= k < i ==> out[k] == At(ring[..], p + k)
    {
      out := out + [ring[src]];
      SlotNext(p + i, ring.Length);
      src := src + 1;
      if src == ring.Length {
        src := 0;
      }
    }
  }

  lemma SlotNext(p: nat, n: nat)
    requires n > 0
    ensures (p + 1) % n == if p % n + 1 == n then 0 else p % n + 1
  {
    if n > 1 { SlotAfter(p, n, 1); } else { assert p % 1 == 0 && (p + 1) % 1 == 0; }
  }

  /** A scatter descriptor, and the writes that scattering makes. */
  datatype Desc = Desc(addr: nat, byteCount: nat)
  datatype Write = Write(addr: nat, data: seq<byte>)
  datatype Scattered = Scattered(log: seq<Write>, rest: seq<byte>)

  /** Scattering `buf` over a plain list of descriptors; `rest` is what does not fit. */
  function Scatter(descs: seq<Desc>, buf: seq<byte>): Scattered {
    if buf == [] || descs == [] then Scattered([], buf)
    else
      var n := Min(|buf|, descs[0].byteCount);
      var tail := Scatter(descs[1..], buf[n..]);
      Scattered([Write(descs[0].addr, buf[..n])] + tail.log, tail.rest)
  }

  lemma {:induction false} ScatterSplit(d: seq<Desc>, d': seq<Desc>, buf: seq<byte>)
    ensures var first := Scatter(d, buf);
            var second := Scatter(d', first.rest);
            Scatter(d + d', buf) == Scattered(first.log + second.log, second.rest)
  {
    hide Scatter;
    ScatterNext(d, buf);
    ScatterNext(d + d', buf);
    if buf == [] {
      ScatterNothing(d');
    } else if d == [] {
      assert d + d' == d';
      ConcatNil(Scatter(d', buf).log);
    } else {
      assert (d + d')[1..] == d[1..] + d';
      var n := if |buf| < d[0].byteCount then |buf| else d[0].byteCount;
      ScatterSplit(d[1..], d', buf[n..]);
      var first := Scatter(d[1..], buf[n..]);
      ConcatAssoc([Write(d[0].addr, buf[..n])], first.log, Scatter(d', first.rest).log);
    }
  }

  lemma ScatterNothing(d: seq<Desc>)
    ensures Scatter(d, []) == Scattered([], [])
  {
  }

  /** Nothing is lost: the writes, in order, and the rest make up the buffer. */
  lemma {:induction false} ScatterConserves(descs: seq<Desc>, buf: seq<byte>)
    ensures Joined(Scatter(descs, buf).log) + Scatter(descs, buf).rest == buf
  {
    if buf != [] && descs != [] {
      var n := Min(|buf|, descs[0].byteCount);
      ScatterConserves(descs[1..], buf[n..]);
      ScatterNext(descs, buf);
      var tail := Scatter(descs[1..], buf[n..]);
      hide Scatter;
      JoinedMore(Write(descs[0].addr, buf[..n]), tail.log);
      ConcatAssoc(buf[..n], Joined(tail.log), tail.rest);
    }
  }

  lemma JoinedMore(w: Write, log: seq<Write>)
    ensures Joined([w] + log) == w.data + Joined(log)
  {
    assert ([w] + log)[1..] == log;
  }

  function Joined(log: seq<Write>): seq<byte> {
    if log == [] then [] else log[0].data + Joined(log[1..])
  }

  /** copy_to_scat: scatters over `max` descriptors from `scat` on. */
  method CopyToScat(ring: array<Desc>, scat: nat, max: nat, buf: seq<byte>) returns (log: seq<Write>, rest: seq<byte>)
    requires scat + max <= ring.Length
    ensures Scattered(log, rest) == Scatter(ring[scat..scat + max], buf)
  {
    hide *;
    log, rest := [], buf;
    ScatterNext(ring[scat..scat + max], buf);
    if buf == [] { return; }
    ConcatNil(Scatter(ring[scat..scat + max], buf).log);
    var i := 0;
    while i < max
      invariant 0 <= i <= max && rest != []
      invariant Scatter(ring[scat..scat + max], buf) ==
        Scattered(log + Scatter(ring[scat + i..scat + max], rest).log, Scatter(ring[scat + i..scat + max], rest).rest)
    {
      ghost var descs := ring[scat + i..scat + max];
      var d := ring[scat + i];
      assert descs[0] == d && descs[1..] == ring[scat + i + 1..scat + max];
      ScatterNext(descs, rest);
      var n := if |rest| < d.byteCount then |rest| else d.byteCount;
      ConcatAssoc(log, [Write(d.addr, rest[..n])], Scatter(descs[1..], rest[n..]).log);
      log := log + [Write(d.addr, rest[..n])];
      rest := rest[n..];
      ScatterNext(descs[1..], rest);
      ConcatNil(log);
      if rest == [] { return; }
      i := i + 1;
    }
    ScatterNext(ring[scat + i..scat + max], rest);
    ConcatNil(log);
  }

  lemma ScatterNext(descs: seq<Desc>, buf: seq<byte>)
    ensures buf == [] || descs == [] ==> Scatter(descs, buf) == Scattered([], buf)
    ensures buf != [] && descs != [] ==>
      var n := if |buf| < descs[0].byteCount then |buf| else descs[0].byteCount;
      var tail := Scatter(descs[1..], buf[n..]);
      Scatter(descs, buf) == Scattered([Write(descs[0].addr, buf[..n])] + tail.log, tail.rest)
  {
  }

  lemma ConcatNil<T>(s: seq<T>)
    ensures s + [] == s && [] + s == s
  {
  }

  /** Scattering a completion's inline payload over the descriptors of a WQE that may run
      across the end of the ring. `scat` is a pointer, up to a WQE past the end. */
  method CopyToSendWqe(ring: array<Desc>, scat: nat, max: nat, buf: seq<byte>, ghost p: nat)
    returns (log: seq<Write>, fits: bool)
    requires 0 < ring.Length && max <= ring.Length && scat < 2 * ring.Length
    requires scat == p % ring.Length || scat - ring.Length == p % ring.Length
    requires scat >= ring.Length ==> scat - ring.Length + max <= ring.Length
    ensures log == Scatter(Unrolled(ring[..], p, max), buf).log
    ensures fits <==> Scatter(Unrolled(ring[..], p, max), buf).rest == []
  {
    hide At, Scatter, Unrolled;
    var at, left, data := scat, max, buf;
    log := [];
    if scat + max > ring.Length {
      if scat < ring.Length {
        var tmp := ring.Length - scat;
        Unroll(ring[..], p, scat, max);
        log, data := CopyToScat(ring, scat, tmp, buf);
        ScatterSplit(ring[scat..], ring[..max - tmp], buf);
        assert ring[scat..scat + tmp] == ring[scat..];
        if data == [] {
          ScatterNothing(ring[..max - tmp]);
          fits := true;
          return;
        }
        at, left := 0, max - tmp;
        assert ring[0..0 + left] == ring[..max - tmp];
      } else {
        at := scat - ring.Length;
        Unroll(ring[..], p, at, max);
      }
    } else if scat < ring.Length {
      Unroll(ring[..], p, at, max);
    } else {
      assert ring[at..at + max] == Unrolled(ring[..], p, max);
    }
    var log', rest := CopyToScat(ring, at, left, data);
    log, fits := log + log', rest == [];
  }

  /** `max` entries of ring `b` from position `p` on, as a plain list. */
  ghost function Unrolled<T>(b: seq<T>, p: nat, max: nat): (r: seq<T>)
    requires 0 < |b|
    ensures |r| == max && forall i :: 0 <= i < max ==> r[i] == At(b, p + i)
  {
    seq(max, i requires 0 <= i => At(b, p + i))
  }

  lemma Unroll<T>(b: seq<T>, p: nat, at: nat, max: nat)
    requires 0 < |b| && at == p % |b| && max <= |b|
    ensures Unrolled(b, p, max) == if at + max <= |b| then b[at..at + max] else b[at..] + b[..at + max - |b|]
  {
    var u := Unrolled(b, p, max);
    var v := if at + max <= |b| then b[at..at + max] else b[at..] + b[..at + max - |b|];
    forall i | 0 <= i < max
      ensures u[i] == v[i]
    {
      SlotAfter(p, |b|, i);
    }
  }
}
