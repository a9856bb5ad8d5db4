/** Sizing of a reliable-connection send queue: how large one WQE may get, how many
    64-byte blocks the ring has, and how many WQEs may be posted at once. Also the layout
    of the two request kinds of the fast path, SEND and RDMA WRITE.
 */
module SqSizing {
  import opened Common

  const WQE_BB := 64       // a ring block, in bytes
  const SEG := 16          // every segment is a multiple of this
  const INT_MAX := 0x7fff_ffff
  const U32 := 0x1_0000_0000

  datatype Result<T> = Ok(value: T) | Empty | Einval | Enomem

  /** What the device and the creator of the queue ask for. Absent options are 0. */
  datatype Attr = Attr(maxSendWr: nat, maxSendSge: nat, maxInlineData: nat, maxAtomicArg: nat, maxInlSendKlms: nat,
                       maxTsoHeader: nat, umrEn: bool, atomics: bool, shutUpMw: bool, maxSqDescSz: nat,
                       maxSendWqebb: nat)

  /** The computed geometry. `maxInline` is an unsigned 32-bit field. */
  datatype Geometry = Geometry(wqeSize: nat, overhead: nat, maxInline: nat, wqeCnt: nat, maxGs: nat, maxPost: nat)

  function Max(a: int, b: int): int { if a < b then b else a }

  function Min(a: int, b: int): int { if a < b then a else b }

  function Align16(v: nat): (r: nat)
    ensures v <= r < v + 16 && r % 16 == 0
  {
    (v + 15) / 16 * 16
  }

  /** Rounded up to whole blocks. */
  function AlignBB(v: nat): (r: nat)
    ensures v <= r < v + WQE_BB && r % WQE_BB == 0
  {
    (v + 63) / 64 * 64
  }

  /** The least power of two that is not below `sz`, if it fits an int. */
  method RoundUpPowerOfTwo(sz: nat) returns (r: Result<nat>)
    requires sz <= U32
    ensures r.Ok? ==> PowerOfTwo(r.value) && sz <= r.value <= INT_MAX && (r.value == 1 || r.value / 2 < sz)
    ensures r.Ok? || r.Enomem?
    ensures r.Enomem? ==> sz > 0x4000_0000
  {
    var p := 1;
    while p < sz
      invariant 1 <= p && PowerOfTwo(p) && (p == 1 || p / 2 < sz)
    {
      p := 2 * p;
    }
    if p > INT_MAX {
      return Enomem;
    }
    r := Ok(p);
  }

  /** Bytes of a WQE that precede its data. */
  function Overhead(a: Attr): (r: nat)
    ensures 32 <= r && r % SEG == 0
  {
    var mwBind := if a.shutUpMw then 0 else 48 + 64 + Max(16, 64);
    var umr := 16 + 48 + 64 + 16;
    var plain := 16 + Max(16, mwBind);
    if a.umrEn then Max(umr, plain) else plain
  }

  /** The largest WQE the queue will hold, rounded up to whole blocks. */
  function SendWqeSize(a: Attr): (r: Result<nat>)
    ensures r.Ok? ==> r.value % WQE_BB == 0 && Overhead(a) <= r.value
    ensures r.Ok? ==> Overhead(a) + SEG * a.maxSendSge <= r.value
    ensures r.Ok? && a.maxInlineData > 0 ==> Overhead(a) + 4 + a.maxInlineData <= r.value
  {
    var inlAtom := if a.atomics then Max(16, if a.maxAtomicArg > 4 then 4 * a.maxAtomicArg else 0) else 0;
    var inlSize := if a.maxInlineData > 0 then Align16(4 + a.maxInlineData) else 0;
    var overhead := Overhead(a) + Align16(a.maxTsoHeader);
    if a.maxSqDescSz < overhead || a.maxSendSge > (a.maxSqDescSz - overhead) / 16 then Einval else
    var t1 := if inlAtom > 0 then overhead + 16 + inlAtom else 0;
    var t2 := overhead + a.maxSendSge * 16;
    var t3 := overhead + a.maxInlSendKlms * 16;
    var t4 := overhead + inlSize;
    var total := Max(Max(t1, t2), Max(t3, t4));
    if total > a.maxSqDescSz then Einval else Ok(AlignBB(total))
  }

  /** `n` bytes hold each kind of WQE that the queue was asked for: with gather entries, with inline keys, with inline
      data, and with an atomic operation and its operands. */
  predicate HoldsEach(a: Attr, n: nat) {
    var o := Overhead(a) + Align16(a.maxTsoHeader);
    && o + 16 * a.maxSendSge <= n && o + 16 * a.maxInlSendKlms <= n
    && (a.maxInlineData > 0 ==> o + Align16(4 + a.maxInlineData) <= n)
    && (a.atomics ==> o + 32 <= n && (a.maxAtomicArg > 4 ==> o + 16 + 4 * a.maxAtomicArg <= n))
  }

  /** The WQE size is found exactly if the largest WQE of the device holds each kind, and then it is the least number
      of whole blocks that does. */
  lemma WqeSizeIsLeast(a: Attr, n: nat)
    requires n % WQE_BB == 0
    ensures SendWqeSize(a).Ok? <==> HoldsEach(a, a.maxSqDescSz)
    ensures SendWqeSize(a).Ok? ==> (HoldsEach(a, n) <==> SendWqeSize(a).value <= n)
  {
    SizeIsDemand(a);
    DemandHolds(a, n);
    DemandHolds(a, a.maxSqDescSz);
    hide *;
    BlocksAbove(Demand(a), n);
  }

  /** The largest of those WQEs, in bytes. */
  function Demand(a: Attr): nat {
    var inlAtom := if a.atomics then 16 + Max(16, if a.maxAtomicArg > 4 then 4 * a.maxAtomicArg else 0) else 0;
    var inlSize := if a.maxInlineData > 0 then Align16(4 + a.maxInlineData) else 0;
    Overhead(a) + Align16(a.maxTsoHeader) +
    Max(Max(inlAtom, a.maxSendSge * 16), Max(a.maxInlSendKlms * 16, inlSize))
  }

  lemma DemandHolds(a: Attr, n: nat)
    ensures HoldsEach(a, n) <==> Demand(a) <= n
  {
    hide Overhead, Align16;
  }

  lemma SizeIsDemand(a: Attr)
    ensures SendWqeSize(a) == if Demand(a) <= a.maxSqDescSz then Ok(AlignBB(Demand(a))) else Einval
  {
    hide Overhead, Align16, AlignBB;
    var o := Overhead(a) + Align16(a.maxTsoHeader);
    if o <= a.maxSqDescSz {
      Quotient(a.maxSqDescSz - o, a.maxSendSge);
    }
  }

  lemma Quotient(x: nat, s: nat)
    ensures s > x / 16 <==> 16 * s > x
  {
  }

  lemma BlocksAbove(t: nat, n: nat)
    requires n % WQE_BB == 0
    ensures t <= n <==> AlignBB(t) <= n
  {
  }

  /** Control and remote address alone take 32 bytes; memory registration takes 144, memory window binding 192. */
  lemma OverheadIs(a: Attr)
    ensures Overhead(a) == if !a.shutUpMw then 192 else if a.umrEn then 144 else 32
  {
  }

  /** The gather entries a WQE has room for. */
  function MaxGs(a: Attr, wqeSize: nat): int {
    Min((Min(wqeSize, 512) - 16 - 16) / 16, (wqeSize - Overhead(a)) / 16)
  }

  /** ... that is, the most that fit behind 32 bytes within 512, and behind the overhead within the whole WQE. */
  lemma MaxGsIsMost(a: Attr, wqeSize: nat, n: nat)
    requires 32 <= wqeSize && Overhead(a) <= wqeSize
    ensures n <= MaxGs(a, wqeSize) <==> 32 + 16 * n <= Min(wqeSize, 512) && Overhead(a) + 16 * n <= wqeSize
  {
    hide Overhead;
    Quotient(Min(wqeSize, 512) - 32, n);
    Quotient(wqeSize - Overhead(a), n);
  }

  /** Some ring of a power of two of bytes is large enough for `need` and not too large for the device. */
  ghost predicate RingExists(a: Attr, need: nat) {
    exists p: nat :: PowerOfTwo(p) && need <= p <= INT_MAX && p / WQE_BB <= a.maxSendWqebb
  }

  /** The requests that can be met. */
  ghost predicate Feasible(a: Attr) {
    && SendWqeSize(a).Ok? && SendWqeSize(a).value <= a.maxSqDescSz && a.maxSqDescSz > 0
    && a.maxSendWr <= INT_MAX / a.maxSqDescSz && RingExists(a, a.maxSendWr * SendWqeSize(a).value)
    && a.maxSendSge <= MaxGs(a, SendWqeSize(a).value)
  }

  /** Sizing of the whole queue: it succeeds exactly for requests that can be met. */
  method CalcSqSize(a: Attr) returns (r: Result<Geometry>)
    ensures r.Empty? <==> a.maxSendWr == 0
    ensures r.Ok? ==> Sized(a, r.value)
    ensures r.Ok? <==> a.maxSendWr > 0 && Feasible(a)
    ensures r.Einval? <==> a.maxSendWr > 0 && (!SendWqeSize(a).Ok? || SendWqeSize(a).value > a.maxSqDescSz)
  {
    hide Overhead, SendWqeSize, PowerOfTwo, MaxGs, RingExists, Sized;
    if a.maxSendWr == 0 { return Empty; }
    var w := SendWqeSize(a);
    if !w.Ok? { return Einval; }
    var wqeSize := w.value;
    if wqeSize > a.maxSqDescSz { return Einval; }
    var overhead := Overhead(a);
    var maxInline := (wqeSize - overhead - 4) % U32;
    if a.maxSendWr > INT_MAX / a.maxSqDescSz { return Enomem; }
    ProductFits(a.maxSendWr, wqeSize, a.maxSqDescSz);
    var need := a.maxSendWr * wqeSize;
    var wq := RoundUpPowerOfTwo(need);
    RoundedIsLeast(a, need, wq);
    if !wq.Ok? { return Enomem; }
    var wqeCnt := wq.value / WQE_BB;
    if wqeCnt > a.maxSendWqebb { return Enomem; }
    var maxGs := MaxGs(a, wqeSize);
    if maxGs < a.maxSendSge { return Enomem; }
    r := Ok(Geometry(wqeSize, overhead, maxInline, wqeCnt, maxGs, wq.value / wqeSize));
    SizedFor(a, r.value, wq.value);
  }

  lemma SizedFor(a: Attr, g: Geometry, wq: nat)
    requires a.maxSendWr > 0 && PowerOfTwo(wq) && a.maxSendWr * g.wqeSize <= wq <= INT_MAX
    requires SendWqeSize(a).Ok? && g.wqeSize == SendWqeSize(a).value && g.overhead == Overhead(a)
    requires g.maxInline == (g.wqeSize - g.overhead - 4) % U32 && g.wqeCnt == wq / WQE_BB <= a.maxSendWqebb
    requires g.maxGs == MaxGs(a, g.wqeSize) && a.maxSendSge <= g.maxGs && g.maxPost == wq / g.wqeSize
    ensures Sized(a, g)
  {
    WholeBlocks(a);
    hide Overhead, SendWqeSize, PowerOfTwo, MaxGs;
    PostFits(wq, g.wqeSize, a.maxSendWr);
    PowerOfTwoBlocks(wq, g.wqeSize);
  }

  lemma WholeBlocks(a: Attr)
    requires SendWqeSize(a).Ok?
    ensures var w := SendWqeSize(a).value; w % WQE_BB == 0 && 32 <= Overhead(a) <= w && WQE_BB <= w
  {
    hide Overhead, SendWqeSize;
  }

  /** The rounded-up size serves if any does. */
  lemma RoundedIsLeast(a: Attr, need: nat, wq: Result<nat>)
    requires wq.Enomem? ==> need > 0x4000_0000
    requires wq.Ok? ==> PowerOfTwo(wq.value) && need <= wq.value <= INT_MAX && (wq.value == 1 || wq.value / 2 < need)
    requires wq.Ok? || wq.Enomem?
    ensures RingExists(a, need) <==> wq.Ok? && wq.value / WQE_BB <= a.maxSendWqebb
  {
    hide PowerOfTwo;
    var v := if wq.Ok? then wq.value else 0x8000_0000;
    if !wq.Ok? { LargePower(); }
    forall p: nat | PowerOfTwo(p) && need <= p
      ensures v <= p
    {
      if p < v { PowersApart(p, v); }
    }
  }

  lemma LargePower()
    ensures PowerOfTwo(0x1_0000) && PowerOfTwo(0x8000_0000)
  {
    hide PowerOfTwo;
    Times16(1);
    Times16(0x10);
    Times16(0x100);
    Times16(0x1000);
    Times16(0x1_0000);
    Times16(0x10_0000);
    Times16(0x100_0000);
    Times16(0x800_0000);
  }

  lemma Times16(n: nat)
    ensures PowerOfTwo(1)
    ensures PowerOfTwo(n) ==> PowerOfTwo(8 * n) && PowerOfTwo(16 * n)
  {
    if PowerOfTwo(n) {
      TwicePower(n);
      hide PowerOfTwo;
      TwicePower(2 * n);
      TwicePower(4 * n);
      TwicePower(8 * n);
    }
  }

  lemma TwicePower(n: nat)
    requires PowerOfTwo(n)
    ensures PowerOfTwo(2 * n)
  {
  }

  lemma {:induction false} PowersApart(p: nat, v: nat)
    requires PowerOfTwo(p) && PowerOfTwo(v) && p < v
    ensures 1 <= p && 2 * p <= v
  {
    if p > 1 { PowersApart(p / 2, v / 2); }
  }

  /** What sizing promises: the ring has a power of two of blocks and room for `maxPost`
      WQEs of the full size, at least as many as were asked for. */
  ghost predicate Sized(a: Attr, g: Geometry)
  {
    && g.overhead == Overhead(a) && g.overhead <= g.wqeSize && g.wqeSize % WQE_BB == 0
    && g.maxInline == (g.wqeSize - g.overhead - 4) % U32
    && g.maxGs == MaxGs(a, g.wqeSize) && a.maxSendSge <= g.maxGs
    && PowerOfTwo(g.wqeCnt) && g.wqeCnt <= a.maxSendWqebb
    && g.maxPost * g.wqeSize <= g.wqeCnt * WQE_BB
    && a.maxSendWr <= g.maxPost
    && g.wqeSize <= INT_MAX
  }

  lemma ProductFits(wr: nat, w: nat, m: nat)
    requires 0 < m && 0 < wr <= INT_MAX / m && w <= m
    ensures w <= wr * w <= INT_MAX
  {
    MulMono(w, m, wr);
    MulMono(wr, INT_MAX / m, m);
    MulMono(1, wr, w);
    assert INT_MAX / m * m <= INT_MAX;
  }

  lemma MulMono(a: nat, b: nat, c: nat)
    requires a <= b
    ensures a * c <= b * c && c * a <= c * b
  {
  }

  lemma Halved(n: nat)
    requires PowerOfTwo(n) && n > 1
    ensures PowerOfTwo(n / 2) && n % 2 == 0
  {
  }

  /** A power of two of at least 64 bytes is a power of two of blocks. */
  lemma PowerOfTwoBlocks(n: nat, sz: nat)
    requires PowerOfTwo(n) && WQE_BB <= sz <= n
    ensures PowerOfTwo(n / WQE_BB) && n % WQE_BB == 0
  {
    hide PowerOfTwo;
    Halved(n);
    Halved(n / 2);
    Halved(n / 2 / 2);
    Halved(n / 2 / 2 / 2);
    Halved(n / 2 / 2 / 2 / 2);
    Halved(n / 2 / 2 / 2 / 2 / 2);
  }

  lemma PostFits(wq: nat, w: nat, wr: nat)
    requires 0 < w && 0 < wr && wr * w <= wq
    ensures (wq / w) * w <= wq && w <= wq && wr <= wq / w
  {
    var q := wq / w;
    assert q * w <= wq < q * w + w;
    assert (q + 1) * w == q * w + w;
    if q + 1 <= wr {
      MulMono(q + 1, wr, w);
    }
    MulMono(1, wr, w);
  }
}
