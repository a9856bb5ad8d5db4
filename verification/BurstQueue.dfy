/** The burst interface of the send queue: frames are put into the ring without ringing the
    doorbell, and frames of the same length and flags share one multi-packet WQE, which
    grows in place until it is closed.
 */
module BurstQueues {
  import opened Common
  import opened Ring
  import opened SendQueues
  import opened WrapCopies
  import opened Burst

  const MAX_MPW_SGE := 5
  const MAX_MPW_SIZE := 0x3FFF
  const MAX_DS := 0x40
  const MAX_INLINE := 972    // the largest inline limit with which no WQE reaches MAX_DS units

  ghost predicate Holds(b: seq<Cell>, p: nat, c: seq<Cell>)
    requires 0 < |b|
  {
    forall q: nat :: p <= q < p + |c| ==> At(b, q) == c[q - p]
  }

  /** The block where record `k` starts, or the next one will. */
  function From(recs: seq<Rec>, scur: nat, k: nat): nat
    requires k <= |recs|
  {
    if k < |recs| then recs[k].start else scur
  }

  ghost predicate Sound(r: Rec) { WellFormed(r) && Units(r) < MAX_DS }

  /** An aggregated inline WQE holds its frames' bytes, at most `maxInline` in all. */
  ghost predicate InlineUpTo(r: Rec, maxInline: nat) {
    WellFormed(r) && r.Agg? && r.inl && Times(r.len, |r.msgs|) <= maxInline
  }

  /** Every inline WQE that an inline limit admits stays below 64 units exactly when the limit is at most 972. */
  lemma InlineLimit(maxInline: nat)
    ensures (forall r: Rec :: InlineUpTo(r, maxInline) ==> Units(r) < MAX_DS) <==> maxInline <= MAX_INLINE
  {
    if maxInline > MAX_INLINE {
      var bytes := seq(MAX_INLINE + 1, _ => 0 as byte);
      var flags := Flags(false, false, false, false);
      var m := Msg(true, flags, [Sge(0, 0, bytes)]);
      assert Gather(m.sges) == bytes + Gather(m.sges[1..]) == bytes;
      var r := Agg(0, true, flags, MAX_INLINE + 1, [m]);
      assert Times(r.len, |r.msgs|) == MAX_INLINE + 1;
      assert InlineUpTo(r, maxInline) && Units(r) == MAX_DS;
    }
  }

  /** The WQEs lie end to end; `scur` is the sum of their rounded-up sizes. */
  ghost predicate Chain(recs: seq<Rec>, scur: nat)
  {
    && (forall k :: 0 <= k < |recs| ==> Sound(recs[k]))
    && (forall k :: 0 <= k < |recs| ==> Link(recs, scur, k))
  }

  ghost predicate Link(recs: seq<Rec>, scur: nat, k: nat)
    requires k < |recs| && Sound(recs[k])
  {
    From(recs, scur, k + 1) == recs[k].start + RecBlocks(recs[k])
  }

  /** From the `tail`-th on, the ring holds the WQEs. */
  ghost predicate Inv(b: seq<Cell>, recs: seq<Rec>, tail: nat, scur: nat, cnt: nat)
  {
    && 0 < cnt && |b| == 64 * cnt && tail <= |recs| && Chain(recs, scur)
    && From(recs, scur, tail) <= scur <= From(recs, scur, tail) + cnt
    && (forall k :: tail <= k < |recs| ==> Holds(b, 64 * recs[k].start, Image(recs[k])))
  }

  lemma {:induction false} ChainGrows(recs: seq<Rec>, scur: nat, j: nat, k: nat)
    requires Chain(recs, scur) && j <= k <= |recs|
    ensures From(recs, scur, j) + (k - j) <= From(recs, scur, k)
    decreases k - j
  {
    hide WellFormed, Units, RecBlocks;
    if j < k {
      ChainGrows(recs, scur, j, k - 1);
      AtLeastOne(recs[k - 1]);
      assert Link(recs, scur, k - 1);
    }
  }

  lemma AtLeastOne(r: Rec)
    requires Sound(r)
    ensures 1 <= Units(r) && 1 <= RecBlocks(r) <= 16 && 16 * Units(r) <= 64 * RecBlocks(r)
  {
    hide Units, WellFormed;
  }

  /** A WQE's image fits its units. */
  lemma ImageFits(r: Rec)
    requires WellFormed(r)
    ensures 32 <= |Image(r)| <= 16 * Units(r)
  {
    if r.Agg? && r.inl {
      StreamLength(r.msgs, r.len);
    }
  }

  // ----- decoding the whole ring -----

  /** A WQE begins here: a control unit with a size and the number of its block. */
  predicate Begins(c: Cell, blk: nat) {
    c.Part? && c.u.Control? && c.u.ds > 0 && c.u.idx == blk % 0x1_0000
  }

  /** What the device reads from block `blk` up to block `end`: at each WQE the control unit
      gives the size, and the next WQE starts at the next block. */
  ghost function Walk(b: seq<Cell>, host: Host, blk: nat, end: nat): seq<Frame>
    requires 0 < |b|
    decreases end - blk
  {
    if blk >= end || !Begins(At(b, 64 * blk), blk) then []
    else
      var ds := At(b, 64 * blk).u.ds;
      Decode(Unrolled(b, 64 * blk, 16 * ds), host) + Walk(b, host, blk + (ds * 16 + 63) / 64, end)
  }

  function AllMsgs(recs: seq<Rec>): seq<Msg> {
    if recs == [] then [] else Msgs(recs[0]) + AllMsgs(recs[1..])
  }

  /** Decoding the WQEs gives exactly the frames that were sent, in order. */
  lemma {:induction false} WalkIsSent(b: seq<Cell>, host: Host, recs: seq<Rec>, tail: nat, scur: nat, cnt: nat, k: nat)
    requires Inv(b, recs, tail, scur, cnt) && tail <= k <= |recs| && AllBacked(host, AllMsgs(recs[k..]))
    ensures Walk(b, host, From(recs, scur, k), scur) == Frames(AllMsgs(recs[k..]))
    decreases |recs| - k
  {
    hide *;
    if k == |recs| {
      WalkEnd(b, host, recs, tail, scur, cnt);
    } else {
      BackedFirst(host, recs, k);
      WalkIsSent(b, host, recs, tail, scur, cnt, k + 1);
      Starts(b, recs, tail, scur, cnt, k);
      ReadRecord(b, host, recs, tail, scur, cnt, k);
      WalkNext(b, host, recs[k].start, scur, Head(recs[k]).ds);
      FramesFirst(recs, k);
    }
  }

  lemma BackedFirst(host: Host, recs: seq<Rec>, k: nat)
    requires k < |recs| && AllBacked(host, AllMsgs(recs[k..]))
    ensures AllBacked(host, Msgs(recs[k])) && AllBacked(host, AllMsgs(recs[k + 1..]))
  {
    hide Backed, Msgs;
    assert recs[k..][1..] == recs[k + 1..];
    BackedParts(host, Msgs(recs[k]), AllMsgs(recs[k + 1..]));
  }

  lemma BackedParts(host: Host, s: seq<Msg>, t: seq<Msg>)
    ensures AllBacked(host, s + t) <==> AllBacked(host, s) && AllBacked(host, t)
  {
    hide Backed;
    if AllBacked(host, s + t) {
      forall i | 0 <= i < |s|
        ensures Backed(host, s[i].sges)
      {
        assert (s + t)[i] == s[i];
      }
      forall i | 0 <= i < |t|
        ensures Backed(host, t[i].sges)
      {
        assert (s + t)[|s| + i] == t[i];
      }
    }
  }

  lemma Starts(b: seq<Cell>, recs: seq<Rec>, tail: nat, scur: nat, cnt: nat, k: nat)
    requires Inv(b, recs, tail, scur, cnt) && tail <= k < |recs|
    ensures From(recs, scur, k) == recs[k].start < scur && 0 < |b| && WellFormed(recs[k])
  {
    hide WellFormed, Units, Holds;
    ChainGrows(recs, scur, k, |recs|);
  }

  lemma WalkEnd(b: seq<Cell>, host: Host, recs: seq<Rec>, tail: nat, scur: nat, cnt: nat)
    requires Inv(b, recs, tail, scur, cnt)
    ensures 0 < |b| && Walk(b, host, From(recs, scur, |recs|), scur) == Frames(AllMsgs(recs[|recs|..]))
  {
    hide Chain, Holds;
    assert recs[|recs|..] == [];
  }

  lemma WalkNext(b: seq<Cell>, host: Host, blk: nat, end: nat, ds: nat)
    requires 0 < |b| && blk < end && Begins(At(b, 64 * blk), blk) && At(b, 64 * blk).u.ds == ds
    ensures Walk(b, host, blk, end) ==
            Decode(Unrolled(b, 64 * blk, 16 * ds), host) + Walk(b, host, blk + (ds * 16 + 63) / 64, end)
  {
    hide Decode, Unrolled;
  }

  lemma FramesFirst(recs: seq<Rec>, k: nat)
    requires k < |recs|
    ensures Frames(AllMsgs(recs[k..])) == Frames(Msgs(recs[k])) + Frames(AllMsgs(recs[k + 1..]))
  {
    hide Frames;
    assert recs[k..][1..] == recs[k + 1..];
    FramesConcat(Msgs(recs[k]), AllMsgs(recs[k + 1..]));
  }

  lemma FramesConcat(s: seq<Msg>, t: seq<Msg>)
    ensures Frames(s + t) == Frames(s) + Frames(t)
  {
    hide Gather;
  }

  lemma ReadRecord(b: seq<Cell>, host: Host, recs: seq<Rec>, tail: nat, scur: nat, cnt: nat, k: nat)
    requires Inv(b, recs, tail, scur, cnt) && tail <= k < |recs| && AllBacked(host, Msgs(recs[k]))
    ensures At(b, 64 * recs[k].start).Part? && At(b, 64 * recs[k].start).u == Head(recs[k])
    ensures Begins(At(b, 64 * recs[k].start), recs[k].start)
    ensures recs[k].start + (Head(recs[k]).ds * 16 + 63) / 64 == From(recs, scur, k + 1)
    ensures Decode(Unrolled(b, 64 * recs[k].start, 16 * Head(recs[k]).ds), host) == Frames(Msgs(recs[k]))
  {
    hide WellFormed, Units, Chain, Image, Decode, Frames, Unrolled, At, Holds, Inv, AllBacked;
    var r := recs[k];
    RecordFacts(b, recs, tail, scur, cnt, k);
    HoldsPrefix(b, 64 * r.start, Image(r), 16 * Units(r));
    DecodeImage(r, Unrolled(b, 64 * r.start, 16 * Units(r)), host);
  }

  lemma RecordFacts(b: seq<Cell>, recs: seq<Rec>, tail: nat, scur: nat, cnt: nat, k: nat)
    requires Inv(b, recs, tail, scur, cnt) && tail <= k < |recs|
    ensures 0 < |b| && Sound(recs[k]) && Holds(b, 64 * recs[k].start, Image(recs[k]))
    ensures From(recs, scur, k + 1) == recs[k].start + RecBlocks(recs[k])
    ensures RecBlocks(recs[k]) == (Units(recs[k]) * 16 + 63) / 64
    ensures 32 <= |Image(recs[k])| <= 16 * Units(recs[k]) && Image(recs[k])[0] == Part(Head(recs[k]), 0)
    ensures Head(recs[k]).ds == Units(recs[k])
  {
    hide WellFormed, Units, Holds, EthCells, DataCells, RecBlocks, Image, Head, From;
    assert Sound(recs[k]) && Link(recs, scur, k);
    ImageFits(recs[k]);
    BlocksOf(recs[k]);
    HeadOf(recs[k]);
  }

  lemma HeadOf(r: Rec)
    requires Sound(r)
    ensures 32 <= |Image(r)| && Image(r)[0] == Part(Head(r), 0) && Head(r).ds == Units(r)
  {
    hide WellFormed, Units, EthCells, DataCells;
  }

  lemma HoldsPrefix(b: seq<Cell>, p: nat, c: seq<Cell>, n: nat)
    requires 0 < |b| && Holds(b, p, c) && 0 < |c| <= n
    ensures c <= Unrolled(b, p, n) && At(b, p) == c[0]
  {
    hide At;
    var u := Unrolled(b, p, n);
    forall i | 0 <= i < |c|
      ensures u[i] == c[i]
    {
      assert At(b, p + i) == c[i];
    }
  }

  // ----- writing WQEs -----

  lemma HoldsConcat(b: seq<Cell>, p: nat, x: seq<Cell>, y: seq<Cell>)
    requires 0 < |b|
    ensures Holds(b, p, x + y) <==> Holds(b, p, x) && Holds(b, p + |x|, y)
  {
    hide At;
    if Holds(b, p, x + y) {
      forall q: nat | p <= q < p + |x|
        ensures At(b, q) == x[q - p]
      {
        assert At(b, q) == (x + y)[q - p];
      }
      forall q: nat | p + |x| <= q < p + |x| + |y|
        ensures At(b, q) == y[q - (p + |x|)]
      {
        assert At(b, q) == (x + y)[q - p];
      }
    }
  }

  /** A write puts its data there and leaves what it does not touch. */
  lemma AfterWrite(b: seq<Cell>, b': seq<Cell>, lo: nat, p: nat, d: seq<Cell>, q: nat, c: seq<Cell>)
    requires Wrote(b, b', lo, p, d)
    requires lo <= q && q + |c| <= lo + |b| && Holds(b, q, c) && (q + |c| <= p || p + |d| <= q)
    ensures Holds(b', q, c) && Holds(b', p, d)
  {
    hide At;
  }

  lemma WroteFacts(b: seq<Cell>, b': seq<Cell>, lo: nat, p: nat, d: seq<Cell>)
    requires Wrote(b, b', lo, p, d) && lo <= p <= lo + |b|
    ensures 0 < |b| == |b'| && Holds(b', p, d) && forall q: nat :: lo <= q < p ==> At(b', q) == At(b, q)
  {
    hide At;
  }

  lemma HoldsNothing(b: seq<Cell>, p: nat)
    requires 0 < |b|
    ensures Holds(b, p, Bytes([]))
  {
  }

  /** What is outstanding is not disturbed by a write from block `at` on. */
  lemma PrefixKept(b: seq<Cell>, b': seq<Cell>, recs: seq<Rec>, tail: nat, scur: nat, cnt: nat, n: nat, at: nat)
    requires Inv(b, recs, tail, scur, cnt) && |b'| == |b| && tail <= n <= |recs| && From(recs, scur, n) == at
    requires forall q: nat :: 64 * From(recs, scur, tail) <= q < 64 * at ==> At(b', q) == At(b, q)
    ensures forall k :: tail <= k < n ==> Holds(b', 64 * recs[k].start, Image(recs[k]))
  {
    hide At, Image, Units, WellFormed, RecBlocks;
    forall k | tail <= k < n
      ensures Holds(b', 64 * recs[k].start, Image(recs[k]))
    {
      ChainGrows(recs, scur, tail, k);
      ChainGrows(recs, scur, k + 1, n);
      assert Link(recs, scur, k);
      AtLeastOne(recs[k]);
      ImageFits(recs[k]);
      assert Holds(b, 64 * recs[k].start, Image(recs[k]));
    }
  }

  /** The last WQE has been replaced, or a new one added, at block `r.start`. */
  lemma PlaceKeepsInv(b: seq<Cell>, b': seq<Cell>, recs: seq<Rec>, tail: nat, scur: nat, cnt: nat, n: nat, r: Rec)
    requires Inv(b, recs, tail, scur, cnt) && |b'| == |b| && tail <= n <= |recs| <= n + 1
    requires r.start == From(recs, scur, n) && Sound(r) && r.start + RecBlocks(r) <= From(recs, scur, tail) + cnt
    requires forall q: nat :: 64 * From(recs, scur, tail) <= q < 64 * r.start ==> At(b', q) == At(b, q)
    requires Holds(b', 64 * r.start, Image(r))
    ensures Inv(b', recs[..n] + [r], tail, r.start + RecBlocks(r), cnt)
    ensures From(recs[..n] + [r], r.start + RecBlocks(r), tail) == From(recs, scur, tail)
  {
    hide At, Image, Units, WellFormed, RecBlocks, Holds;
    PrefixKept(b, b', recs, tail, scur, cnt, n, r.start);
    ChainGrows(recs, scur, tail, n);
    var recs', scur' := recs[..n] + [r], r.start + RecBlocks(r);
    forall k | 0 <= k < |recs'|
      ensures Sound(recs'[k]) && Link(recs', scur', k)
    {
      assert k < n ==> recs'[k] == recs[k] && Link(recs, scur, k);
    }
  }

  // ----- the queue -----

  datatype MpwState = Closed | Opened | OpenedInl

  /** What software remembers of the multi-packet WQE it is filling. Pointers are offsets
      into the ring. */
  datatype Mpw = Mpw(state: MpwState, size: nat, numSge: nat, len: nat, totalLen: nat, flags: Flags, scurPost: nat,
                     lastDseg: nat, inlData: nat, ctrl: nat)

  function SumSges(msgs: seq<Msg>): nat {
    if msgs == [] then 0 else SumSges(msgs[..|msgs| - 1]) + |msgs[|msgs| - 1].sges|
  }

  /** An open WQE is the last one, its doorbell has not been rung, and `mpw` describes it. */
  ghost predicate MpwOk(mpw: Mpw, recs: seq<Rec>, tail: nat, rung: nat, ringLen: nat)
    requires 0 < ringLen
  {
    mpw.state != Closed ==>
      && tail < |recs| && rung < |recs| && Describes(mpw, recs[|recs| - 1], ringLen)
  }

  /** `lastPost` is the block of the newest WQE, or of the next one if the device knows of all. */
  ghost predicate Newest(lastPost: nat, recs: seq<Rec>, rung: nat, scur: nat) {
    if rung < |recs| then lastPost == recs[|recs| - 1].start else lastPost % 0x1_0000 == scur % 0x1_0000
  }

  lemma NewestSame(lastPost: nat, recs: seq<Rec>, recs': seq<Rec>, rung: nat, scur: nat, scur': nat)
    requires Newest(lastPost, recs, rung, scur) && rung < |recs| == |recs'|
    requires recs'[|recs| - 1].start == recs[|recs| - 1].start
    ensures Newest(lastPost, recs', rung, scur')
  {
  }

  lemma LastBlocks(b: seq<Cell>, recs: seq<Rec>, tail: nat, scur: nat, cnt: nat)
    requires Inv(b, recs, tail, scur, cnt) && recs != []
    ensures Sound(recs[|recs| - 1]) && scur == recs[|recs| - 1].start + RecBlocks(recs[|recs| - 1])
    ensures RecBlocks(recs[|recs| - 1]) <= 16
  {
    hide Units, WellFormed, RecBlocks, Holds, Image;
    assert Link(recs, scur, |recs| - 1);
    AtLeastOne(recs[|recs| - 1]);
  }

  /** The blocks from `from` to `to`, in 16 bits. */
  function Distance(from: nat, to: nat): nat {
    (to % 0x1_0000 - from + 0x1_0000) % 0x1_0000
  }

  lemma DistanceIs(from: nat, to: nat)
    ensures from <= to < from + 0x1_0000 ==> Distance(from, to) == to - from
    ensures from % 0x1_0000 == to % 0x1_0000 ==> Distance(from, to) == 0
  {
  }

  lemma FlushFacts(b: seq<Cell>, recs: seq<Rec>, tail: nat, scur: nat, cnt: nat, rung: nat, lastPost: nat)
    requires Inv(b, recs, tail, scur, cnt) && rung <= |recs| && Newest(lastPost, recs, rung, scur)
    ensures if rung < |recs| then
        && WellFormed(recs[|recs| - 1]) && lastPost == recs[|recs| - 1].start
        && Distance(lastPost, scur) == RecBlocks(recs[|recs| - 1])
      else Distance(lastPost, scur) == 0
    ensures Newest(scur % 0x1_0000, recs, |recs|, scur)
  {
    DistanceIs(lastPost, scur);
    hide Inv, RecBlocks, Distance, WellFormed;
    if rung < |recs| {
      LastBlocks(b, recs, tail, scur, cnt);
    }
  }

  ghost predicate Describes(mpw: Mpw, r: Rec, ringLen: nat)
    requires 0 < ringLen
  {
    && r.Agg? && Sound(r) && r.inl == mpw.state.OpenedInl? && r.len == mpw.len && r.start == mpw.scurPost
    && r.flags == mpw.flags && !mpw.flags.signaled && !LastFlags(r).signaled
    && mpw.size == Units(r) && IsSlot(mpw.ctrl, 64 * r.start, ringLen)
    && (r.inl ==> mpw.totalLen == Times(r.len, |r.msgs|) && r.len <= mpw.totalLen
                  && IsSlot(mpw.inlData, 64 * r.start + 36 + mpw.totalLen - r.len, ringLen))
    && (!r.inl ==> mpw.numSge == SumSges(r.msgs) && IsSlot(mpw.lastDseg, 64 * r.start + 16 * (mpw.size - 1), ringLen))
  }

  /** Blocks that a frame needs if it gets a WQE of its own. */
  function Fresh(m: Msg): nat
    requires m.sges != []
  {
    if m.inl then ((2 + (|Gather(m.sges)| + 19) / 16) * 16 + 63) / 64 else ((3 + |Kept(m.sges)|) * 16 + 63) / 64
  }

  /** What the caller of the burst interface has to see to. */
  ghost predicate Sendable(m: Msg, maxInline: nat)
  {
    && m.sges != [] && |m.sges| <= 60 && 0 < |Gather(m.sges)|
    && (m.inl ==> |m.sges| == 1 && |Gather(m.sges)| <= maxInline)
  }

  class BurstQueue {
    const cnt: nat
    const maxInline: nat
    const mem: array<Cell>
    var scur: nat
    var lastPost: nat
    var mpw: Mpw

    ghost var recs: seq<Rec>  // every WQE written, oldest first
    ghost var tail: nat       // how many of them the device is done with
    ghost var rung: nat       // how many of them the device has been told about

    constructor (blocks: nat, maxInl: nat)
      requires 0 < blocks && maxInl <= MAX_INLINE
      ensures Valid() && fresh(mem) && cnt == blocks && maxInline == maxInl && recs == [] && tail == 0 && rung == 0
    {
      cnt, maxInline := blocks, maxInl;
      mem := new Cell[64 * blocks](_ => Byte(0));
      scur, lastPost := 0, 0;
      mpw := Mpw(Closed, 0, 0, 0, 0, Flags(false, false, false, false), 0, 0, 0, 0);
      recs, tail, rung := [], 0, 0;
    }

    ghost predicate Valid()
      reads this, mem
    {
      && 0 < cnt && mem.Length == 64 * cnt && maxInline <= MAX_INLINE
      && Inv(mem[..], recs, tail, scur, cnt) && tail <= rung <= |recs|
      && MpwOk(mpw, recs, tail, rung, mem.Length) && Newest(lastPost, recs, rung, scur)
    }

    /** The first byte that is still in use. */
    ghost function Lo(): nat
      reads this
      requires tail <= |recs|
    {
      64 * From(recs, scur, tail)
    }

    /** Writes the pointer units of a gather list; returns the place of the last one. */
    method PutPointers(slot: nat, sges: seq<Sge>, ghost lo: nat, ghost p: nat) returns (last: nat, n: nat)
      requires 0 < mem.Length && Aligned(p, mem.Length) && sges != [] && IsSlot(slot, p, mem.Length)
      requires lo <= p && p + 16 * |Kept(sges)| <= lo + mem.Length
      modifies mem
      ensures Wrote(old(mem[..]), mem[..], lo, p, PtrCells(Kept(sges)))
      ensures n == |Kept(sges)| && IsSlot(last, p + 16 * (n - 1), mem.Length)
    {
      hide At, Wrote, IsSlot, PtrCells, NonEmpty, Aligned, Kept, Cells;
      ghost var done := [sges[0]];
      KeptStart(sges);
      last, n := slot, 1;
      PutUnit(last, PointerTo(sges[0]), lo, p);
      PtrCellsOne(sges[0]);
      var i := 1;
      while i < |sges|
        invariant 1 <= i <= |sges| && 1 <= |done| == n && done + NonEmpty(sges[i..]) == Kept(sges)
        invariant IsSlot(last, p + 16 * (|done| - 1), mem.Length) && Aligned(p + 16 * (|done| - 1), mem.Length)
        invariant Wrote(old(mem[..]), mem[..], lo, p, PtrCells(done))
      {
        KeptNext(sges, i, done);
        if sges[i].bytes != [] {
          ghost var mid := mem[..];
          NextUnit(last, p + 16 * (|done| - 1), mem.Length);
          last := if last + 16 == mem.Length then 0 else last + 16;
          PutUnit(last, PointerTo(sges[i]), lo, p + 16 * |done|);
          PtrCellsMore(done, sges[i]);
          WroteTrans(old(mem[..]), mid, mem[..], lo, p, PtrCells(done), Cells(PointerTo(sges[i]), 16));
          done := done + [sges[i]];
          n := n + 1;
        }
        i := i + 1;
      }
      KeptNext(sges, i, done);
    }

    /** Puts a frame into a new multi-packet WQE. */
    method OpenNew(m: Msg)
      requires Valid() && Sendable(m, maxInline) && scur + Fresh(m) <= From(recs, scur, tail) + cnt
      modifies this`scur, this`lastPost, this`mpw, this`recs, mem
      ensures Valid() && recs == old(recs) + [Agg(old(scur), m.inl, m.flags, |Gather(m.sges)|, [m])]
      ensures mpw.state.Closed? <==> m.flags.signaled || (!m.inl && |m.sges| >= MAX_MPW_SGE)
      ensures scur <= old(scur) + Fresh(m) && From(recs, scur, tail) == old(From(recs, scur, tail))
    {
      hide Holds, At, Image, Units, WellFormed, Fresh, Gather, Chain, IsSlot, Describes;
      ghost var before := mem[..];
      var len := |Gather(m.sges)|;
      ghost var r := Agg(scur, m.inl, m.flags, len, [m]);
      NewRecord(r, m, maxInline);
      AtLeastOne(r);
      BlockSlots(scur, cnt);
      var start := 64 * (scur % cnt);
      var size, lastDseg := WriteNew(m, start, r, Lo());
      var closed := m.flags.signaled || (!m.inl && |m.sges| >= MAX_MPW_SGE);
      PlaceKeepsInv(before, mem[..], recs, tail, scur, cnt, |recs|, r);
      mpw := Mpw(if closed then Closed else if m.inl then OpenedInl else Opened, size, |m.sges|, len, len, m.flags,
                 scur, lastDseg, start + 36, start);
      lastPost := scur;
      scur := scur + (size * 16 + 63) / 64;
      assert recs[..|recs|] == recs;
      recs := recs + [r];
      NewDescribed(mpw, r, m, cnt);
    }

    /** Writes the units of a new multi-packet WQE. */
    method WriteNew(m: Msg, start: nat, ghost r: Rec, ghost lo: nat) returns (size: nat, lastDseg: nat)
      requires 0 < cnt && mem.Length == 64 * cnt && BlockAt(start, scur, mem.Length)
      requires r == Agg(scur, m.inl, m.flags, |Gather(m.sges)|, [m]) && Sound(r) && m.sges != []
      requires lo <= 64 * scur && 64 * scur + 16 * Units(r) <= lo + mem.Length
      modifies mem
      ensures Holds(mem[..], 64 * scur, Image(r)) && size == Units(r)
      ensures forall q: nat :: lo <= q < 64 * scur ==> At(mem[..], q) == At(old(mem[..]), q)
      ensures !m.inl ==> IsSlot(lastDseg, 64 * scur + 16 * (size - 1), mem.Length)
    {
      hide At, IsSlot, Image, Units, WellFormed, Gather, Holds, Wrote, Kept, PtrCells, Cells, Bytes, Stream, Aligned;
      NewImage(r, m);
      ghost var p := 64 * scur;
      var len := |Gather(m.sges)|;
      ghost var b0 := mem[..];
      PutUnit(start + 16, Eth(len, m.flags.csum, 0, []), lo, p + 16);
      ghost var b1 := mem[..];
      ghost var eth := Cells(Eth(len, m.flags.csum, 0, []), 16);
      WroteFacts(b0, b1, lo, p + 16, eth);
      lastDseg := 0;
      ghost var data: seq<Cell>;
      if m.inl {
        data := Cells(InlineLen(len), 4) + Bytes([] + Gather(m.sges));
        HoldsNothing(b1, p + 36);
        PutInline(start + 36, Gather(m.sges), start + 32, len, lo, p + 32, []);
        size := 2 + (len + 4 + 15) / 16;
      } else {
        data := PtrCells(Kept(m.sges));
        var n;
        UnitAligned(scur, cnt, 2);
        lastDseg, n := PutPointers(start + 32, m.sges, lo, p + 32);
        size := 2 + n;
      }
      AfterWrite(b1, mem[..], lo, p + 32, data, p + 16, eth);
      WroteFacts(b1, mem[..], lo, p + 32, data);
      PutControl(start, Control(true, scur % 0x1_0000, size % 0x40, m.flags), eth, data, lo, p);
    }

    /** Writes a frame's bytes behind those of the open WQE `r`, which becomes `r'`. */
    method AddInline(m: Msg, slot: nat, total: nat, ghost r: Rec, ghost r': Rec, ghost lo: nat)
      requires 0 < cnt && mem.Length == 64 * cnt && r.Agg? && r' == More(r, m) && Sound(r')
      requires GrowsInline(r, m, mpw, mem.Length) && slot == Beyond(mpw, mem.Length)
      requires total == mpw.totalLen + mpw.len && mpw.len == |Gather(m.sges)|
      requires lo <= 64 * r.start && 64 * r.start + 16 * Units(r') <= lo + mem.Length
      requires WellFormed(r) && EthCells(r') == EthCells(r) && Holds(mem[..], 64 * r.start + 16, EthCells(r))
      requires Holds(mem[..], 64 * r.start + 36, Bytes(Stream(r.msgs)))
      modifies mem
      ensures Holds(mem[..], 64 * r.start + 16, EthCells(r')) && Holds(mem[..], 64 * r.start + 32, DataCells(r'))
      ensures forall q: nat :: lo <= q < 64 * r.start + 16 ==> At(mem[..], q) == At(old(mem[..]), q)
    {
      hide Holds, At, Units, WellFormed, Gather, IsSlot, Stream, Bytes, Cells, Wrote, DataCells, EthCells, Beyond;
      ghost var before, p := mem[..], 64 * r.start;
      DataFits(r');
      PutInline(slot, Gather(m.sges), mpw.ctrl + 32, total, lo, p + 32, Stream(r.msgs));
      AfterWrite(before, mem[..], lo, p + 32, DataCells(r'), p + 16, EthCells(r));
      WroteFacts(before, mem[..], lo, p + 32, DataCells(r'));
    }

    /** Adds an inline frame to the open multi-packet WQE. */
    method AppendInline(m: Msg)
      requires Valid() && Sendable(m, maxInline) && scur + Fresh(m) <= From(recs, scur, tail) + cnt
      requires mpw.state.OpenedInl? && m.inl && Fits(mpw, m) && mpw.totalLen + mpw.len <= maxInline
      modifies this`scur, this`mpw, this`recs, mem
      ensures Valid() && recs == Extended(old(recs), m) && (mpw.state.Closed? <==> m.flags.signaled)
      ensures scur <= old(scur) + Fresh(m) && From(recs, scur, tail) == old(From(recs, scur, tail))
    {
      hide Holds, At, Image, Units, WellFormed, Fresh, Gather, IsSlot, Stream, Bytes, Cells, Times, RecBlocks, Wrote,
           DataCells, EthCells, Inv, Chain, Kept, PtrCells, Aligned, Newest, Describes, Growing, Sendable, Fits, Sound;
      ghost var before, r := mem[..], recs[|recs| - 1];
      LastRecord(before, recs, tail, scur, cnt);
      OpenFacts(mpw, recs, tail, rung, cnt, scur, m, maxInline);
      ghost var r', lo, p := More(r, m), Lo(), 64 * r.start;
      Grow(r, m, mpw, maxInline, mem.Length);
      DataFits(r');
      var slot := mpw.inlData + mpw.len;
      if slot >= mem.Length {
        slot := slot - mem.Length;
      }
      var total := mpw.totalLen + mpw.len;
      AddInline(m, slot, total, r, r', lo);
      var size := 2 + (total + 4 + 15) / 16;
      Finish(size, m.flags.signaled, before, r, r');
      ghost var was := mpw;
      var state := if m.flags.signaled then Closed else OpenedInl;
      mpw := mpw.(totalLen := total, inlData := slot, size := size, state := state);
      if !m.flags.signaled { DescribedMore(r, m, was, mpw, maxInline, mem.Length); }
      NewestSame(lastPost, old(recs), recs, rung, old(scur), scur);
    }

    /** Writes a frame's pointers behind those of the open WQE `r`, which becomes `r'`. */
    method AddPointers(m: Msg, dseg: nat, ghost r: Rec, ghost r': Rec, ghost lo: nat) returns (last: nat, n: nat)
      requires 0 < cnt && mem.Length == 64 * cnt && m.sges != [] && r.Agg? && WellFormed(r) && r' == More(r, m)
      requires Sound(r')
      requires GrowsPointers(r, m, mpw, mem.Length)
      requires dseg == (if mpw.lastDseg + 16 == mem.Length then 0 else mpw.lastDseg + 16)
      requires lo <= 64 * r.start && 64 * r.start + 16 * Units(r') <= lo + mem.Length && EthCells(r') == EthCells(r)
      requires Holds(mem[..], 64 * r.start + 16, EthCells(r)) && Holds(mem[..], 64 * r.start + 32, DataCells(r))
      modifies mem
      ensures Holds(mem[..], 64 * r.start + 16, EthCells(r')) && Holds(mem[..], 64 * r.start + 32, DataCells(r'))
      ensures forall q: nat :: lo <= q < 64 * r.start + 16 ==> At(mem[..], q) == At(old(mem[..]), q)
      ensures n == |Kept(m.sges)| && IsSlot(last, 64 * r.start + 16 * (mpw.size + n - 1), mem.Length)
    {
      hide Holds, At, Units, WellFormed, IsSlot, Wrote, DataCells, EthCells, Kept, PtrCells, Aligned;
      ghost var before, p := mem[..], 64 * r.start;
      UnitAligned(r.start, cnt, mpw.size);
      DataFits(r');
      last, n := PutPointers(dseg, m.sges, lo, p + 16 * mpw.size);
      ghost var added := PtrCells(Kept(m.sges));
      AfterWrite(before, mem[..], lo, p + 16 * mpw.size, added, p + 16, EthCells(r));
      AfterWrite(before, mem[..], lo, p + 16 * mpw.size, added, p + 32, DataCells(r));
      WroteFacts(before, mem[..], lo, p + 16 * mpw.size, added);
      HoldsConcat(mem[..], p + 32, DataCells(r), added);
    }

    /** Adds a gathered frame to the open multi-packet WQE. */
    method AppendPointers(m: Msg)
      requires Valid() && Sendable(m, maxInline) && scur + Fresh(m) <= From(recs, scur, tail) + cnt
      requires mpw.state.Opened? && !m.inl && Fits(mpw, m) && mpw.numSge + |m.sges| <= MAX_MPW_SGE
      modifies this`scur, this`mpw, this`recs, mem
      ensures Valid() && recs == Extended(old(recs), m)
      ensures mpw.state.Closed? <==> m.flags.signaled || old(mpw.numSge) + |m.sges| == MAX_MPW_SGE
      ensures scur <= old(scur) + Fresh(m) && From(recs, scur, tail) == old(From(recs, scur, tail))
    {
      hide Holds, At, Image, Units, WellFormed, Fresh, Gather, IsSlot, Stream, Bytes, Cells, Times, RecBlocks, Wrote,
           DataCells, EthCells, Inv, Chain, Kept, PtrCells, Aligned, Newest, Describes, Growing, Sendable, Fits, Sound;
      ghost var before, r := mem[..], recs[|recs| - 1];
      LastRecord(before, recs, tail, scur, cnt);
      OpenFacts(mpw, recs, tail, rung, cnt, scur, m, maxInline);
      ghost var r', lo, p := More(r, m), Lo(), 64 * r.start;
      Grow(r, m, mpw, maxInline, mem.Length);
      DataFits(r');
      var dseg := mpw.lastDseg + 16;
      if dseg == mem.Length {
        dseg := 0;
      }
      var last, n := AddPointers(m, dseg, r, r', lo);
      var size, numSge := mpw.size + n, mpw.numSge + |m.sges|;
      Finish(size, m.flags.signaled, before, r, r');
      ghost var was := mpw;
      mpw := mpw.(numSge := numSge, lastDseg := last, size := size,
                  state := if m.flags.signaled || numSge == MAX_MPW_SGE then Closed else Opened);
      if mpw.state.Opened? { DescribedMore(r, m, was, mpw, maxInline, mem.Length); }
      NewestSame(lastPost, old(recs), recs, rung, old(scur), scur);
    }

    /** Puts a frame into a WQE of its own, with its first bytes in the Ethernet unit.
        Refuses a frame whose first buffer does not reach beyond those bytes. */
    method SendSingle(m: Msg) returns (ok: bool)
      requires Valid() && Sendable(m, maxInline) && !m.inl && scur + Fresh(m) <= From(recs, scur, tail) + cnt
      modifies this`scur, this`lastPost, this`mpw, this`recs, mem
      ensures Valid() && (ok <==> |m.sges[0].bytes| > INLINE_HDR)
      ensures recs == (if ok then old(recs) + [Single(old(scur), m)] else old(recs)) && mpw.state.Closed?
      ensures scur <= old(scur) + Fresh(m) && From(recs, scur, tail) == old(From(recs, scur, tail))
    {
      hide Holds, At, Image, Units, WellFormed, Gather, IsSlot, Cells, RecBlocks, Wrote, Chain, Kept, PtrCells;
      hide Describes;
      mpw := mpw.(state := Closed);
      ghost var before := mem[..];
      ghost var lo, p := Lo(), 64 * scur;
      BlockSlots(scur, cnt);
      var start := 64 * (scur % cnt);
      if |m.sges[0].bytes| <= INLINE_HDR {
        PutUnit(start + 16, Eth(0, m.flags.csum, INLINE_HDR, []), lo, p + 16);
        WroteFacts(before, mem[..], lo, p + 16, Cells(Eth(0, m.flags.csum, INLINE_HDR, []), 16));
        ScribbleKeepsInv(before, mem[..], recs, tail, scur, cnt);
        return false;
      }
      ok := true;
      ghost var r := Single(scur, m);
      SingleRecord(r);
      AtLeastOne(r);
      var size := WriteSingle(m, start, r, lo);
      PlaceKeepsInv(before, mem[..], recs, tail, scur, cnt, |recs|, r);
      BlocksOf(r);
      lastPost := scur;
      scur := scur + (size * 16 + 63) / 64;
      assert recs[..|recs|] == recs;
      recs := recs + [r];
    }

    method WriteSingle(m: Msg, start: nat, ghost r: Rec, ghost lo: nat) returns (size: nat)
      requires 0 < cnt && mem.Length == 64 * cnt && BlockAt(start, scur, mem.Length)
      requires r == Single(scur, m) && Sound(r)
      requires lo <= 64 * scur && 64 * scur + 16 * Units(r) <= lo + mem.Length
      modifies mem
      ensures Holds(mem[..], 64 * scur, Image(r)) && size == Units(r)
      ensures forall q: nat :: lo <= q < 64 * scur ==> At(mem[..], q) == At(old(mem[..]), q)
    {
      hide At, IsSlot, Image, Units, WellFormed, Gather, Holds, Wrote, Kept, PtrCells, Cells, EthCells, DataCells;
      hide Shortened, Aligned;
      SingleImage(r);
      ghost var p := 64 * scur;
      var b := m.sges[0].bytes;
      ghost var b0 := mem[..];
      PutUnit(start + 16, Eth(0, m.flags.csum, INLINE_HDR, b[..2]), lo, p + 16);
      ghost var b1 := mem[..];
      WroteFacts(b0, b1, lo, p + 16, EthCells(r));
      var hdr := EthHdr(b[2..INLINE_HDR]);
      PutUnit(start + 32, hdr, lo, p + 32);
      ghost var b2 := mem[..];
      AfterWrite(b1, b2, lo, p + 32, Cells(hdr, 16), p + 16, EthCells(r));
      WroteFacts(b1, b2, lo, p + 32, Cells(hdr, 16));
      UnitAligned(scur, cnt, 3);
      var _, n := PutPointers(start + 48, Shortened(m.sges), lo, p + 48);
      ghost var ptrs := PtrCells(Kept(Shortened(m.sges)));
      AfterWrite(b2, mem[..], lo, p + 48, ptrs, p + 16, EthCells(r));
      AfterWrite(b2, mem[..], lo, p + 48, ptrs, p + 32, Cells(hdr, 16));
      WroteFacts(b2, mem[..], lo, p + 48, ptrs);
      HoldsConcat(mem[..], p + 32, Cells(hdr, 16), ptrs);
      size := 3 + n;
      PutControl(start, Control(false, scur % 0x1_0000, size % 0x40, m.flags), EthCells(r), DataCells(r), lo, p);
    }

    /** Sends one frame: adds it to the open multi-packet WQE if it is of the same kind and
        fits, opens a new one, or gives it a WQE of its own if it is too long. Whatever
        happens, the frames in the ring are the old ones followed by this one, and no WQE
        that the device has been told about changes. */
    method SendPending(m: Msg) returns (ok: bool)
      requires Valid() && Sendable(m, maxInline) && scur + Fresh(m) <= From(recs, scur, tail) + cnt
      modifies this`scur, this`lastPost, this`mpw, this`recs, mem
      ensures Valid()
      ensures recs == Sent(old(recs), old(!mpw.state.Closed?), old(scur), m, maxInline)
      ensures !mpw.state.Closed? <==> ok && StaysOpen(recs, m)
      ensures ok ==> AllMsgs(recs) == AllMsgs(old(recs)) + [m]
      ensures !ok <==> recs == old(recs) && !m.inl && |Gather(m.sges)| > MAX_MPW_SIZE && |m.sges[0].bytes| <= INLINE_HDR
      ensures rung <= |recs| && recs[..rung] == old(recs)[..rung]
      ensures scur <= old(scur) + Fresh(m) && From(recs, scur, tail) == old(From(recs, scur, tail))
    {
      SentMsgs(recs, !mpw.state.Closed?, scur, m, maxInline);
      SentPrefix(recs, !mpw.state.Closed?, scur, m, maxInline);
      hide Inv, Fresh, Gather, AllMsgs, Joins, StaysOpen, Sent, Describes;
      ok := Dispatch(m);
    }

    method Dispatch(m: Msg) returns (ok: bool)
      requires Valid() && Sendable(m, maxInline) && scur + Fresh(m) <= From(recs, scur, tail) + cnt
      modifies this`scur, this`lastPost, this`mpw, this`recs, mem
      ensures Valid() && recs == Sent(old(recs), old(!mpw.state.Closed?), old(scur), m, maxInline)
      ensures !mpw.state.Closed? <==> ok && StaysOpen(recs, m)
      ensures !ok <==> recs == old(recs) && !m.inl && |Gather(m.sges)| > MAX_MPW_SIZE && |m.sges[0].bytes| <= INLINE_HDR
      ensures scur <= old(scur) + Fresh(m) && From(recs, scur, tail) == old(From(recs, scur, tail))
    {
      hide Inv, Fresh, Gather, AllMsgs, Joins, StaysOpen, MpwOk, SumSges;
      SendGuards(mpw, recs, tail, rung, mem.Length, m, maxInline);
      SentOpen(recs, !mpw.state.Closed?, scur, m, maxInline);
      SentMsgs(recs, !mpw.state.Closed?, scur, m, maxInline);
      ok := true;
      var size := |Gather(m.sges)|;
      if m.inl && mpw.state.OpenedInl? && Fits(mpw, m) && mpw.totalLen + size <= maxInline {
        AppendInline(m);
      } else if !m.inl && mpw.state.Opened? && Fits(mpw, m) && mpw.numSge + |m.sges| <= MAX_MPW_SGE {
        AppendPointers(m);
      } else if m.inl || size <= MAX_MPW_SIZE {
        OpenNew(m);
      } else {
        ok := SendSingle(m);
      }
    }

    /** The device, walking the ring from the first WQE it has not finished, finds exactly
        the frames sent since then, in the order in which they were sent. */
    lemma RingMeaning(host: Host)
      requires Valid() && AllBacked(host, AllMsgs(recs[tail..]))
      ensures Walk(mem[..], host, From(recs, scur, tail), scur) == Frames(AllMsgs(recs[tail..]))
    {
      WalkIsSent(mem[..], host, recs, tail, scur, cnt, tail);
    }

    /** Rings the doorbell: the device may now read every WQE, and none of them is open. It is told the block behind
        the last WQE, `curr`; the `size` blocks from block `from` on, which may be pushed to it along with the
        doorbell, are the newest WQE that it had not been told about. */
    method Flush() returns (curr: nat, from: nat, size: nat)
      requires Valid()
      modifies this`lastPost, this`mpw, this`rung
      ensures Valid() && rung == |recs| && mpw.state.Closed? && curr == scur % 0x1_0000
      ensures old(rung) < |recs| ==> from == recs[|recs| - 1].start % cnt && size == RecBlocks(recs[|recs| - 1])
      ensures old(rung) == |recs| ==> size == 0
    {
      hide Inv, Distance, Newest, RecBlocks, Sound, WellFormed, Units, Describes;
      FlushFacts(mem[..], recs, tail, scur, cnt, rung, lastPost);
      curr, from, size := scur % 0x1_0000, lastPost % cnt, Distance(lastPost, scur);
      lastPost := curr;
      mpw := mpw.(state := Closed);
      rung := |recs|;
    }

    /** The device is done with the first `k` WQEs. */
    method DeviceDone(ghost k: nat)
      requires Valid() && tail <= k <= rung
      modifies this`tail
      ensures Valid() && tail == k
    {
      hide Inv, Describes, Newest;
      DoneKeepsInv(mem[..], recs, tail, scur, cnt, k);
      tail := k;
    }

    /** The burst call: a list of buffers, each a frame, sent one after the other whatever the outcome, and the
        doorbell. None of them can be refused, and the device finds them behind what it had still to do. */
    method SendMsgList(bufs: seq<Sge>, flags: Flags, ghost host: Host)
      requires Valid()
      requires (forall i :: 0 <= i < |bufs| ==> bufs[i].bytes != []) && scur + |bufs| <= From(recs, scur, tail) + cnt
      modifies this`scur, this`lastPost, this`mpw, this`recs, this`rung, mem
      ensures Valid() && rung == |recs| && mpw.state.Closed? && old(rung) <= |recs|
      ensures recs[..old(rung)] == old(recs)[..old(rung)]
      ensures AllMsgs(recs) == AllMsgs(old(recs)) + Bodies(bufs, flags)
      ensures old(mpw.state.Closed?) ==> |recs| == |old(recs)| + WqesFor(bufs, flags.signaled, |bufs|)
      ensures AllBacked(host, AllMsgs(recs[tail..])) ==>
        Walk(mem[..], host, From(recs, scur, tail), scur)
          == old(Walk(mem[..], host, From(recs, scur, tail), scur)) + Frames(Bodies(bufs, flags))
    {
      hide Inv, MpwOk, Gather, AllMsgs, Walk, Bodies, Frames, AllBacked;
      SendAll(bufs, flags);
      var _, _, _ := Flush();
      Behind(old(recs), recs, tail, Bodies(bufs, flags));
      if AllBacked(host, AllMsgs(recs[tail..])) {
        BackedParts(host, AllMsgs(old(recs)[tail..]), Bodies(bufs, flags));
        WalkIsSent(old(mem[..]), host, old(recs), tail, old(scur), cnt, tail);
        RingMeaning(host);
        FramesConcat(AllMsgs(old(recs)[tail..]), Bodies(bufs, flags));
      }
    }

    method SendAll(bufs: seq<Sge>, flags: Flags)
      requires Valid()
      requires (forall i :: 0 <= i < |bufs| ==> bufs[i].bytes != []) && scur + |bufs| <= From(recs, scur, tail) + cnt
      modifies this`scur, this`lastPost, this`mpw, this`recs, mem
      ensures Valid() && recs[..rung] == old(recs)[..rung] && AllMsgs(recs) == AllMsgs(old(recs)) + Bodies(bufs, flags)
      ensures From(recs, scur, tail) == old(From(recs, scur, tail))
      ensures old(mpw.state.Closed?) ==> |recs| == |old(recs)| + WqesFor(bufs, flags.signaled, |bufs|)
    {
      hide Inv, MpwOk, Gather, AllMsgs, Bodies, Fresh, Sendable, Sent, StaysOpen, Tracks, StartsWqe;
      var i := 0;
      TracksNone(recs, bufs, flags);
      BodiesNone(bufs, flags, AllMsgs(recs));
      while i < |bufs|
        invariant 0 <= i <= |bufs| && Valid() && scur + (|bufs| - i) <= From(recs, scur, tail) + cnt
        invariant From(recs, scur, tail) == old(From(recs, scur, tail))
        invariant recs[..rung] == old(recs)[..rung] && AllMsgs(recs) == AllMsgs(old(recs)) + Bodies(bufs[..i], flags)
        invariant old(mpw.state.Closed?) ==>
          && Tracks(recs, !mpw.state.Closed?, bufs, flags, i)
          && |recs| == |old(recs)| + WqesFor(bufs, flags.signaled, i)
      {
        var m := Msg(false, flags, [bufs[i]]);
        OneBuffer(m, maxInline);
        if old(mpw.state.Closed?) {
          TracksNext(recs, !mpw.state.Closed?, scur, bufs, flags, i, maxInline);
        }
        var ok := SendPending(m);
        BodiesMore(bufs, flags, i, AllMsgs(old(recs)));
        i := i + 1;
      }
      assert bufs[..i] == bufs;
    }

    /** Updates the control unit of the last WQE, whose body has grown, and the position. */
    method Finish(size: nat, signaled: bool, ghost before: seq<Cell>, ghost r: Rec, ghost r': Rec)
      requires 0 < cnt && mem.Length == 64 * cnt && |before| == mem.Length && tail < |recs|
      requires Inv(before, recs, tail, scur, cnt)
      requires r == recs[|recs| - 1] && r'.start == r.start == mpw.scurPost && Sound(r) && Sound(r')
      requires size == Units(r')
      requires r.start + RecBlocks(r') <= From(recs, scur, tail) + cnt && IsSlot(mpw.ctrl, 64 * r.start, mem.Length)
      requires r.Agg? && Head(r') == Control(true, r.start % 0x1_0000, size % 0x40, LastFlags(r).(signaled := signaled))
      requires At(mem[..], 64 * r.start) == Part(Head(r), 0)
      requires Holds(mem[..], 64 * r.start + 16, EthCells(r')) && Holds(mem[..], 64 * r.start + 32, DataCells(r'))
      requires forall q: nat :: Lo() <= q < 64 * r.start ==> At(mem[..], q) == At(before, q)
      modifies this`scur, this`recs, mem
      ensures recs == old(recs)[..|old(recs)| - 1] + [r'] && Inv(mem[..], recs, tail, scur, cnt)
      ensures From(recs, scur, tail) == old(From(recs, scur, tail)) && scur == r.start + RecBlocks(r')
    {
      hide Holds, At, Units, WellFormed, IsSlot, Cells, RecBlocks, DataCells, EthCells, Inv, Chain, LastFlags;
      LastRecord(before, recs, tail, scur, cnt);
      SlotAt(mem[..], mpw.ctrl, 64 * r.start);
      DataFits(r');
      var u := mem[mpw.ctrl].u;
      u := u.(ds := size % 0x40, flags := u.flags.(signaled := signaled));
      PutControl(mpw.ctrl, u, EthCells(r'), DataCells(r'), Lo(), 64 * r.start);
      PlaceKeepsInv(before, mem[..], recs, tail, scur, cnt, |recs| - 1, r');
      BlocksOf(r');
      scur := mpw.scurPost + (size * 16 + 63) / 64;
      recs := recs[..|recs| - 1] + [r'];
    }

    /** Writes the control unit in front of a finished body. */
    method PutControl(start: nat, u: Struct, ghost eth: seq<Cell>, ghost data: seq<Cell>, ghost lo: nat, ghost p: nat)
      requires 0 < mem.Length && IsSlot(start, p, mem.Length) && |eth| == 16
      requires lo <= p && p + 32 + |data| <= lo + mem.Length
      requires Holds(mem[..], p + 16, eth) && Holds(mem[..], p + 32, data)
      modifies mem
      ensures Holds(mem[..], p, Cells(u, 16) + (eth + data))
      ensures forall q: nat :: lo <= q < p ==> At(mem[..], q) == At(old(mem[..]), q)
    {
      hide At, Holds, Cells, IsSlot;
      ghost var b := mem[..];
      PutUnit(start, u, lo, p);
      AfterWrite(b, mem[..], lo, p, Cells(u, 16), p + 16, eth);
      AfterWrite(b, mem[..], lo, p, Cells(u, 16), p + 32, data);
      HoldsConcat(mem[..], p + 16, eth, data);
      HoldsConcat(mem[..], p, Cells(u, 16), eth + data);
    }

    /** Writes inline bytes behind the bytes `s` that are there, and the length word. */
    method PutInline(slot: nat, bytes: seq<byte>, seg: nat, total: nat, ghost lo: nat, ghost p: nat, ghost s: seq<byte>)
      requires 0 < mem.Length && IsSlot(slot, p + 4 + |s|, mem.Length) && IsSlot(seg, p, mem.Length)
      requires lo <= p && p + 4 + |s| + |bytes| <= lo + mem.Length
      requires Holds(mem[..], p + 4, Bytes(s))
      modifies mem
      ensures Wrote(old(mem[..]), mem[..], lo, p, Cells(InlineLen(total), 4) + Bytes(s + bytes))
    {
      hide At, Wrote, Holds, Bytes, Cells, IsSlot;
      ghost var b0 := mem[..];
      var _ := PutWrapped(mem, slot, Bytes(bytes), lo, p + 4 + |s|);
      ghost var b1 := mem[..];
      var _ := PutWrapped(mem, seg, Cells(InlineLen(total), 4), lo, p);
      InlineWritten(b0, b1, mem[..], lo, p, Cells(InlineLen(total), 4), s, bytes);
    }

    method PutUnit(slot: nat, u: Struct, ghost lo: nat, ghost p: nat)
      requires 0 < mem.Length && IsSlot(slot, p, mem.Length)
      requires lo <= p && p + 16 <= lo + mem.Length
      modifies mem
      ensures Wrote(old(mem[..]), mem[..], lo, p, Cells(u, 16))
    {
      var _ := PutWrapped(mem, slot, Cells(u, 16), lo, p);
    }
  }

  /** Bytes appended behind those that are there, and the length word in front written again. */
  lemma InlineWritten(b0: seq<Cell>, b1: seq<Cell>, b2: seq<Cell>, lo: nat, p: nat, word: seq<Cell>, s: seq<byte>,
                      bytes: seq<byte>)
    requires Wrote(b0, b1, lo, p + 4 + |s|, Bytes(bytes)) && Wrote(b1, b2, lo, p, word) && |word| == 4
    requires lo <= p && p + 4 + |s| + |bytes| <= lo + |b0| && 0 < |b0| && Holds(b0, p + 4, Bytes(s))
    ensures Wrote(b0, b2, lo, p, word + Bytes(s + bytes))
  {
    hide At;
  }

  /** `s` is where block `blk` starts; places inside a block do not wrap. */
  predicate BlockAt(s: nat, blk: nat, n: nat)
    requires 0 < n
  {
    && IsSlot(s, 64 * blk, n) && IsSlot(s + 16, 64 * blk + 16, n) && IsSlot(s + 32, 64 * blk + 32, n)
    && IsSlot(s + 36, 64 * blk + 36, n) && IsSlot(s + 48, 64 * blk + 48, n)
  }

  /** Position and ring length are multiples of 16. */
  predicate Aligned(p: nat, n: nat) { p % 16 == 0 && n % 16 == 0 }

  lemma UnitAligned(blk: nat, cnt: nat, u: nat)
    ensures Aligned(64 * blk + 16 * u, 64 * cnt)
  {
  }

  lemma BlockSlots(blk: nat, cnt: nat)
    requires 0 < cnt
    ensures BlockAt(64 * (blk % cnt), blk, 64 * cnt)
  {
    var q, r, n := blk / cnt, blk % cnt, 64 * cnt;
    assert blk == q * cnt + r;
    assert 64 * blk == q * n + 64 * r;
    DivUnique(64 * blk, n, q, 64 * r);
    DivUnique(64 * blk + 16, n, q, 64 * r + 16);
    DivUnique(64 * blk + 32, n, q, 64 * r + 32);
    DivUnique(64 * blk + 36, n, q, 64 * r + 36);
    DivUnique(64 * blk + 48, n, q, 64 * r + 48);
  }

  /** The multi-packet WQE that `mpw` describes takes frames like `m`. */
  predicate Fits(mpw: Mpw, m: Msg) { mpw.len == |Gather(m.sges)| && SameKind(mpw.flags, m.flags) }

  /** The last WQE, if it is open, takes frame `m`: it holds frames of that kind and length, and with it keeps within
      five gather entries or the inline limit. */
  ghost predicate Joins(recs: seq<Rec>, open: bool, m: Msg, maxInline: nat) {
    && open && recs != [] && var r := recs[|recs| - 1];
    && r.Agg? && r.inl == m.inl && r.len == |Gather(m.sges)| && SameKind(r.flags, m.flags)
    && if m.inl then Times(r.len, |r.msgs| + 1) <= maxInline else SumSges(r.msgs) + |m.sges| <= MAX_MPW_SGE
  }

  /** The WQEs once frame `m` has been sent: it joins the last one, or starts one at block `scur`. */
  ghost function Sent(recs: seq<Rec>, open: bool, scur: nat, m: Msg, maxInline: nat): seq<Rec>
    requires m.sges != []
  {
    if Joins(recs, open, m, maxInline) then Extended(recs, m)
    else if m.inl || |Gather(m.sges)| <= MAX_MPW_SIZE then recs + [Agg(scur, m.inl, m.flags, |Gather(m.sges)|, [m])]
    else if |m.sges[0].bytes| > INLINE_HDR then recs + [Single(scur, m)]
    else recs
  }

  /** The WQE that frame `m` went into may take more. */
  predicate StaysOpen(recs: seq<Rec>, m: Msg) {
    && recs != [] && recs[|recs| - 1].Agg? && !m.flags.signaled
    && (m.inl || SumSges(recs[|recs| - 1].msgs) < MAX_MPW_SGE)
  }

  /** A frame that is not refused follows those sent before. */
  lemma SentMsgs(recs: seq<Rec>, open: bool, scur: nat, m: Msg, maxInline: nat)
    requires m.sges != []
    ensures var recs' := Sent(recs, open, scur, m, maxInline);
      recs' == recs || AllMsgs(recs') == AllMsgs(recs) + [m]
    ensures Sent(recs, open, scur, m, maxInline) == recs <==>
      !m.inl && |Gather(m.sges)| > MAX_MPW_SIZE && |m.sges[0].bytes| <= INLINE_HDR && !Joins(recs, open, m, maxInline)
  {
    hide AllMsgs, Gather, SumSges, Times;
    if Joins(recs, open, m, maxInline) {
      MsgsExtended(recs, m);
    } else if m.inl || |Gather(m.sges)| <= MAX_MPW_SIZE {
      MsgsAdded(recs, Agg(scur, m.inl, m.flags, |Gather(m.sges)|, [m]), m);
    } else {
      MsgsAdded(recs, Single(scur, m), m);
    }
  }

  /** Only the open WQE changes. */
  lemma SentPrefix(recs: seq<Rec>, open: bool, scur: nat, m: Msg, maxInline: nat)
    requires m.sges != []
    ensures var recs' := Sent(recs, open, scur, m, maxInline);
      |recs| <= |recs'| && forall n: nat :: n < |recs| || (n == |recs| && !open) ==> recs'[..n] == recs[..n]
  {
    hide Gather, SumSges, Times;
  }

  /** Whether the WQE that a frame went into may take more. */
  lemma SentOpen(recs: seq<Rec>, open: bool, scur: nat, m: Msg, maxInline: nat)
    requires m.sges != []
    ensures var recs' := Sent(recs, open, scur, m, maxInline);
      if Joins(recs, open, m, maxInline) then
        StaysOpen(recs', m) <==> !m.flags.signaled && (m.inl || SumSges(recs[|recs| - 1].msgs) + |m.sges| < MAX_MPW_SGE)
      else if m.inl || |Gather(m.sges)| <= MAX_MPW_SIZE then
        StaysOpen(recs', m) <==> !m.flags.signaled && (m.inl || |m.sges| < MAX_MPW_SGE)
      else recs' == recs || !StaysOpen(recs', m)
  {
    hide Gather, Times;
    if Joins(recs, open, m, maxInline) {
      SumMore(recs[|recs| - 1].msgs, m);
    } else {
      SumOne(m);
    }
  }

  lemma SumOne(m: Msg)
    ensures SumSges([m]) == |m.sges|
  {
    assert SumSges([m][..0]) == 0;
  }

  lemma SumMore(msgs: seq<Msg>, m: Msg)
    ensures SumSges(msgs + [m]) == SumSges(msgs) + |m.sges|
  {
    assert (msgs + [m])[..|msgs|] == msgs;
  }

  // ----- how many WQEs a burst takes -----

  /** How many buffers of the same length precede buffer `i` without a break. */
  function RunPos(bufs: seq<Sge>, i: nat): nat
    requires i < |bufs|
  {
    if i == 0 || |bufs[i].bytes| != |bufs[i - 1].bytes| then 0 else RunPos(bufs, i - 1) + 1
  }

  /** Buffer `i` of a burst starts a WQE: they are all signalled, it is too long to share one, or five of its length
      have filled the last one. */
  predicate StartsWqe(bufs: seq<Sge>, signaled: bool, i: nat)
    requires i < |bufs|
  {
    signaled || |bufs[i].bytes| > 0x3FFF || RunPos(bufs, i) % 5 == 0
  }

  /** The WQEs that the first `n` buffers of a burst take. */
  function WqesFor(bufs: seq<Sge>, signaled: bool, n: nat): nat
    requires n <= |bufs|
  {
    if n == 0 then 0 else WqesFor(bufs, signaled, n - 1) + if StartsWqe(bufs, signaled, n - 1) then 1 else 0
  }

  /** Unsignalled buffers of one length that may share WQEs do so five at a time. */
  lemma {:induction false} FiveToAWqe(bufs: seq<Sge>, len: nat, n: nat)
    requires n <= |bufs| && len <= 0x3FFF && forall i :: 0 <= i < |bufs| ==> |bufs[i].bytes| == len
    ensures WqesFor(bufs, false, n) == (n + 4) / 5
    ensures n > 0 ==> RunPos(bufs, n - 1) == n - 1
  {
    if n > 0 {
      FiveToAWqe(bufs, len, n - 1);
    }
  }

  /** Signalled buffers, and those too long to share, have WQEs of their own. */
  lemma {:induction false} OneToAWqe(bufs: seq<Sge>, signaled: bool, n: nat)
    requires n <= |bufs| && forall i :: 0 <= i < |bufs| ==> signaled || |bufs[i].bytes| > 0x3FFF
    ensures WqesFor(bufs, signaled, n) == n
  {
    if n > 0 {
      OneToAWqe(bufs, signaled, n - 1);
    }
  }

  /** The state of the open WQE in the middle of a burst, after `i` buffers. */
  ghost predicate Tracks(recs: seq<Rec>, open: bool, bufs: seq<Sge>, flags: Flags, i: nat)
    requires i <= |bufs|
  {
    if i == 0 then !open
    else
      && (open <==> !flags.signaled && |bufs[i - 1].bytes| <= MAX_MPW_SIZE && RunPos(bufs, i - 1) % 5 != 4)
      && (open ==>
            && recs != [] && recs[|recs| - 1].Agg? && !recs[|recs| - 1].inl && recs[|recs| - 1].flags == flags
            && recs[|recs| - 1].len == |bufs[i - 1].bytes|
            && SumSges(recs[|recs| - 1].msgs) == RunPos(bufs, i - 1) % 5 + 1)
  }

  lemma NextPos(bufs: seq<Sge>, i: nat)
    requires i < |bufs|
    ensures if i == 0 || |bufs[i].bytes| != |bufs[i - 1].bytes| then RunPos(bufs, i) % 5 == 0
            else RunPos(bufs, i) % 5 == if RunPos(bufs, i - 1) % 5 == 4 then 0 else RunPos(bufs, i - 1) % 5 + 1
  {
  }

  lemma TracksNone(recs: seq<Rec>, bufs: seq<Sge>, flags: Flags)
    ensures Tracks(recs, false, bufs, flags, 0)
  {
  }

  lemma TracksNext(recs: seq<Rec>, open: bool, scur: nat, bufs: seq<Sge>, flags: Flags, i: nat, maxInline: nat)
    requires i < |bufs| && Tracks(recs, open, bufs, flags, i) && bufs[i].bytes != []
    ensures var m := Msg(false, flags, [bufs[i]]); var recs' := Sent(recs, open, scur, m, maxInline);
      && |recs'| == |recs| + (if StartsWqe(bufs, flags.signaled, i) then 1 else 0)
      && Tracks(recs', StaysOpen(recs', m), bufs, flags, i + 1)
  {
    hide Gather, RunPos, Times, SumSges;
    var m := Msg(false, flags, [bufs[i]]);
    OneBuffer(m, maxInline);
    NextPos(bufs, i);
    if Joins(recs, open, m, maxInline) {
      SumMore(recs[|recs| - 1].msgs, m);
    } else {
      SumOne(m);
    }
  }

  /** What software remembers of the open WQE tells whether a frame joins it. */
  lemma SendGuards(mpw: Mpw, recs: seq<Rec>, tail: nat, rung: nat, n: nat, m: Msg, maxInline: nat)
    requires 0 < n && MpwOk(mpw, recs, tail, rung, n)
    ensures Joins(recs, mpw.state != Closed, m, maxInline) <==>
      && Fits(mpw, m)
      && if m.inl then mpw.state.OpenedInl? && mpw.totalLen + |Gather(m.sges)| <= maxInline
         else mpw.state.Opened? && mpw.numSge + |m.sges| <= MAX_MPW_SGE
    ensures mpw.state.Opened? ==> mpw.numSge == SumSges(recs[|recs| - 1].msgs) && recs[|recs| - 1].Agg?
  {
    hide Gather, Units, WellFormed, SumSges, Times;
    if mpw.state != Closed {
      TimesSucc(recs[|recs| - 1].len, |recs[|recs| - 1].msgs|);
    }
  }

  function More(r: Rec, m: Msg): Rec
    requires r.Agg?
  {
    r.(msgs := r.msgs + [m])
  }

  /** `recs` with frame `m` added to its last WQE. */
  function Extended(recs: seq<Rec>, m: Msg): seq<Rec>
  {
    var last := |recs| - 1;
    if recs == [] || !recs[last].Agg? then recs else recs[..last] + [More(recs[last], m)]
  }

  lemma {:induction false} StreamMore(msgs: seq<Msg>, m: Msg)
    ensures Stream(msgs + [m]) == Stream(msgs) + Gather(m.sges)
  {
    hide Gather;
    if msgs == [] {
      assert [m][1..] == [] && Stream([m]) == Gather(m.sges) + Stream([]);
    } else {
      assert (msgs + [m])[1..] == msgs[1..] + [m];
      StreamMore(msgs[1..], m);
    }
  }

  lemma {:induction false} AllKeptMore(msgs: seq<Msg>, m: Msg)
    requires m.sges != [] && forall i :: 0 <= i < |msgs| ==> msgs[i].sges != []
    ensures AllKept(msgs + [m]) == AllKept(msgs) + Kept(m.sges)
  {
    hide Kept;
    if msgs == [] {
      assert [m][1..] == [] && AllKept([m]) == Kept(m.sges) + AllKept([]);
    } else {
      assert (msgs + [m])[1..] == msgs[1..] + [m];
      AllKeptMore(msgs[1..], m);
    }
  }

  /** A frame of the same kind keeps an aggregated record well formed. */
  lemma MoreWellFormed(r: Rec, m: Msg)
    requires WellFormed(r) && r.Agg? && !LastFlags(r).signaled && m.sges != []
    requires m.inl == r.inl && |Gather(m.sges)| == r.len && SameKind(r.flags, m.flags)
    ensures WellFormed(More(r, m)) && LastFlags(More(r, m)) == m.flags
    ensures m.flags == LastFlags(r).(signaled := m.flags.signaled) && m.flags.csum == r.flags.csum
  {
    hide Gather;
  }

  lemma SlotAt(b: seq<Cell>, slot: nat, p: nat)
    requires 0 < |b| && IsSlot(slot, p, |b|)
    ensures slot < |b| && b[slot] == At(b, p)
  {
  }

  lemma BlocksOf(r: Rec)
    requires WellFormed(r)
    ensures RecBlocks(r) == (Units(r) * 16 + 63) / 64
  {
  }

  lemma DataFits(r: Rec)
    requires Sound(r)
    ensures 32 + |DataCells(r)| <= 16 * Units(r) <= 64 * RecBlocks(r)
  {
    ImageFits(r);
    AtLeastOne(r);
  }

  /** What memory holds of the last WQE. */
  lemma LastRecord(b: seq<Cell>, recs: seq<Rec>, tail: nat, scur: nat, cnt: nat)
    requires Inv(b, recs, tail, scur, cnt) && tail < |recs|
    ensures 0 < |b| == 64 * cnt && Sound(recs[|recs| - 1])
    ensures var r := recs[|recs| - 1]; var p := 64 * r.start;
      && From(recs, scur, tail) <= r.start && scur == r.start + RecBlocks(r)
      && At(b, p) == Part(Head(r), 0) && Holds(b, p + 16, EthCells(r)) && Holds(b, p + 32, DataCells(r))
      && (r.Agg? && r.inl ==> Holds(b, p + 36, Bytes(Stream(r.msgs))))
  {
    hide Units, WellFormed, Chain, At, Holds, EthCells, RecBlocks, Head, Cells, Bytes, Stream, Times, Image, Inv;
    var k, r := |recs| - 1, recs[|recs| - 1];
    RecordFacts(b, recs, tail, scur, cnt, k);
    LastStart(b, recs, tail, scur, cnt);
    Parts(b, 64 * r.start, r);
    if r.Agg? && r.inl {
      HoldsConcat(b, 64 * r.start + 32, Cells(InlineLen(Times(r.len, |r.msgs|)), 4), Bytes(Stream(r.msgs)));
    }
  }

  lemma LastStart(b: seq<Cell>, recs: seq<Rec>, tail: nat, scur: nat, cnt: nat)
    requires Inv(b, recs, tail, scur, cnt) && tail < |recs|
    ensures |b| == 64 * cnt && From(recs, scur, tail) <= recs[|recs| - 1].start
  {
    hide Units, WellFormed, RecBlocks, Holds, Image;
    ChainGrows(recs, scur, tail, |recs| - 1);
  }

  lemma Parts(b: seq<Cell>, p: nat, r: Rec)
    requires 0 < |b| && WellFormed(r) && Holds(b, p, Image(r))
    ensures At(b, p) == Part(Head(r), 0) && Holds(b, p + 16, EthCells(r)) && Holds(b, p + 32, DataCells(r))
  {
    hide Units, WellFormed, Head, EthCells, DataCells, At;
    HoldsConcat(b, p, Cells(Head(r), 16), EthCells(r) + DataCells(r));
    HoldsConcat(b, p + 16, EthCells(r), DataCells(r));
    assert Cells(Head(r), 16)[0] == Part(Head(r), 0);
  }

  /** Adding a frame to the WQE that `mpw` describes: the record, its size, its units, and
      the place where the new data goes. */
  lemma Grow(r: Rec, m: Msg, mpw: Mpw, maxInline: nat, n: nat)
    requires Growing(r, m, mpw, maxInline, n)
    ensures Sound(More(r, m)) && EthCells(More(r, m)) == EthCells(r)
    ensures RecBlocks(More(r, m)) <= RecBlocks(r) + Fresh(m)
    ensures Head(More(r, m))
      == Control(true, r.start % 0x1_0000, Units(More(r, m)) % 0x40, LastFlags(r).(signaled := m.flags.signaled))
    ensures m.inl ==> GrowsInline(r, m, mpw, n)
    ensures !m.inl ==> GrowsPointers(r, m, mpw, n)
  {
    hide Units, DataCells, WellFormed;
    MoreWellFormed(r, m);
    if m.inl {
      GrowInline(r, m, mpw, maxInline, n);
    } else {
      GrowPointers(r, m, mpw, maxInline, n);
    }
  }

  /** What is known of the open WQE that a frame joins. */
  lemma OpenFacts(mpw: Mpw, recs: seq<Rec>, tail: nat, rung: nat, cnt: nat, scur: nat, m: Msg, maxInline: nat)
    requires 0 < cnt && maxInline <= MAX_INLINE && mpw.state != Closed && MpwOk(mpw, recs, tail, rung, 64 * cnt)
    requires tail < |recs| && From(recs, scur, tail) <= recs[|recs| - 1].start <= scur
    requires Sendable(m, maxInline) && Fits(mpw, m) && scur + Fresh(m) <= From(recs, scur, tail) + cnt
    requires if m.inl then mpw.state.OpenedInl? && mpw.totalLen + mpw.len <= maxInline
             else mpw.state.Opened? && mpw.numSge + |m.sges| <= MAX_MPW_SGE
    ensures rung < |recs|
    ensures var r := recs[|recs| - 1];
      && Growing(r, m, mpw, maxInline, 64 * cnt) && r.Agg? && r.inl == m.inl && Sound(r) && WellFormed(r)
      && r.start == mpw.scurPost && IsSlot(mpw.ctrl, 64 * r.start, 64 * cnt)
      && m.sges != [] && mpw.len == |Gather(m.sges)|
  {
    hide Fresh, Gather, Units, WellFormed, IsSlot;
  }

  ghost predicate Growing(r: Rec, m: Msg, mpw: Mpw, maxInline: nat, n: nat)
  {
    && 0 < n && n % 64 == 0 && maxInline <= MAX_INLINE && mpw.state != Closed && Describes(mpw, r, n)
    && Sendable(m, maxInline) && m.inl == r.inl && Fits(mpw, m) && 64 * Fresh(m) <= n
    && (if m.inl then mpw.totalLen + mpw.len <= maxInline else mpw.numSge + |m.sges| <= MAX_MPW_SGE)
  }

  lemma GrowInline(r: Rec, m: Msg, mpw: Mpw, maxInline: nat, n: nat)
    requires Growing(r, m, mpw, maxInline, n) && m.inl && WellFormed(More(r, m))
    ensures GrowsInline(r, m, mpw, n) && Units(More(r, m)) < MAX_DS && RecBlocks(More(r, m)) <= RecBlocks(r) + Fresh(m)
  {
    hide Gather, Stream, Bytes, Cells, IsSlot, WellFormed, Times;
    StreamMore(r.msgs, m);
    assert
      && |Stream(r.msgs)| == Times(r.len, |r.msgs|)
      && Times(r.len, |r.msgs| + 1) == Times(r.len, |r.msgs|) + r.len
    by {
      RecStream(r);
      TimesSucc(r.len, |r.msgs|);
    }
    GrowSlots(r, mpw, n);
  }

  lemma RecStream(r: Rec)
    requires WellFormed(r) && r.Agg?
    ensures |Stream(r.msgs)| == Times(r.len, |r.msgs|)
  {
    hide Gather;
    StreamLength(r.msgs, r.len);
  }

  lemma TimesSucc(a: nat, b: nat)
    ensures Times(a, b + 1) == Times(a, b) + a
  {
    MulSucc(b, a);
  }

  /** The pointer behind the inline data of the open WQE. */
  function Beyond(mpw: Mpw, n: nat): int {
    if mpw.inlData + mpw.len >= n then mpw.inlData + mpw.len - n else mpw.inlData + mpw.len
  }

  lemma GrowSlots(r: Rec, mpw: Mpw, n: nat)
    requires 0 < n && n % 64 == 0 && Describes(mpw, r, n) && r.inl && mpw.len <= n
    ensures mpw.ctrl + 32 < n && IsSlot(mpw.ctrl + 32, 64 * r.start + 32, n)
    ensures IsSlot(Beyond(mpw, n), 64 * r.start + 36 + mpw.totalLen, n)
  {
    hide Units, WellFormed, Times, LastFlags;
    SlotPlus(mpw.inlData, 64 * r.start + 36 + mpw.totalLen - r.len, n, mpw.len);
    BlockSlots(r.start, n / 64);
  }

  lemma GrowPointers(r: Rec, m: Msg, mpw: Mpw, maxInline: nat, n: nat)
    requires Growing(r, m, mpw, maxInline, n) && !m.inl && WellFormed(More(r, m))
    ensures GrowsPointers(r, m, mpw, n) && Units(More(r, m)) < MAX_DS
    ensures RecBlocks(More(r, m)) <= RecBlocks(r) + Fresh(m)
  {
    hide Gather, Kept, AllKept, PtrCells, IsSlot, Aligned;
    AllKeptMore(r.msgs, m);
    AllKeptBound(r.msgs);
    PtrCellsConcat(AllKept(r.msgs), Kept(m.sges));
    UnitAligned(r.start, n / 64, mpw.size - 1);
    NextUnit(mpw.lastDseg, 64 * r.start + 16 * (mpw.size - 1), n);
  }

  lemma {:induction false} AllKeptBound(msgs: seq<Msg>)
    requires forall i :: 0 <= i < |msgs| ==> msgs[i].sges != []
    ensures |AllKept(msgs)| <= SumSges(msgs)
  {
    hide Kept;
    if msgs != [] {
      var front, m := msgs[..|msgs| - 1], msgs[|msgs| - 1];
      AllKeptBound(front);
      AllKeptMore(front, m);
      assert front + [m] == msgs;
    }
  }

  lemma SlotPlus(slot: nat, p: nat, n: nat, len: nat)
    requires 0 < n && len <= n && IsSlot(slot, p, n)
    ensures IsSlot(if slot + len >= n then slot + len - n else slot + len, p + len, n)
  {
    if len < n { SlotAfter(p, n, len); } else { NextLapSlot(p, n); }
  }

  /** `mpw` after a frame has been added still describes the WQE. */
  lemma DescribedMore(r: Rec, m: Msg, mpw: Mpw, mpw': Mpw, maxInline: nat, n: nat)
    requires Growing(r, m, mpw, maxInline, n) && Sound(More(r, m)) && !m.flags.signaled
    requires mpw'.size == Units(More(r, m))
    requires m.inl ==> mpw' == mpw.(size := mpw'.size, totalLen := mpw.totalLen + mpw.len, inlData := mpw'.inlData)
    requires m.inl ==> IsSlot(mpw'.inlData, 64 * r.start + 36 + mpw.totalLen, n)
    requires !m.inl ==> mpw' == mpw.(size := mpw'.size, numSge := mpw.numSge + |m.sges|, lastDseg := mpw'.lastDseg)
    requires !m.inl ==> IsSlot(mpw'.lastDseg, 64 * r.start + 16 * (mpw'.size - 1), n)
    ensures Describes(mpw', More(r, m), n)
  {
    hide Units, WellFormed, Gather;
    MoreWellFormed(r, m);
    MulSucc(|r.msgs|, r.len);
    assert (r.msgs + [m])[..|r.msgs|] == r.msgs;
  }

  ghost predicate GrowsInline(r: Rec, m: Msg, mpw: Mpw, n: nat)
    requires 0 < n && r.Agg? && WellFormed(More(r, m))
  {
    var total := mpw.totalLen + mpw.len;
    && Units(More(r, m)) == 2 + (total + 4 + 15) / 16
    && DataCells(More(r, m)) == Cells(InlineLen(total), 4) + Bytes(Stream(r.msgs) + Gather(m.sges))
    && |Stream(r.msgs)| == mpw.totalLen && mpw.ctrl + 32 < n && IsSlot(mpw.ctrl + 32, 64 * r.start + 32, n)
    && IsSlot(Beyond(mpw, n), 64 * r.start + 36 + mpw.totalLen, n)
  }

  ghost predicate GrowsPointers(r: Rec, m: Msg, mpw: Mpw, n: nat)
    requires 0 < n && r.Agg? && WellFormed(r) && WellFormed(More(r, m)) && m.sges != []
  {
    && Units(More(r, m)) == mpw.size + |Kept(m.sges)|
    && DataCells(More(r, m)) == DataCells(r) + PtrCells(Kept(m.sges)) && |DataCells(r)| == 16 * (mpw.size - 2)
    && IsSlot(if mpw.lastDseg + 16 == n then 0 else mpw.lastDseg + 16, 64 * r.start + 16 * mpw.size, n)
  }

  lemma ScribbleKeepsInv(b: seq<Cell>, b': seq<Cell>, recs: seq<Rec>, tail: nat, scur: nat, cnt: nat)
    requires Inv(b, recs, tail, scur, cnt) && |b'| == |b|
    requires forall q: nat :: 64 * From(recs, scur, tail) <= q < 64 * scur ==> At(b', q) == At(b, q)
    ensures Inv(b', recs, tail, scur, cnt)
  {
    hide At, Holds, Image, Units, WellFormed;
    PrefixKept(b, b', recs, tail, scur, cnt, |recs|, scur);
  }

  lemma DoneKeepsInv(b: seq<Cell>, recs: seq<Rec>, tail: nat, scur: nat, cnt: nat, k: nat)
    requires Inv(b, recs, tail, scur, cnt) && tail <= k <= |recs|
    ensures Inv(b, recs, k, scur, cnt)
  {
    hide At, Holds, Image, Units, WellFormed;
    ChainGrows(recs, scur, tail, k);
    ChainGrows(recs, scur, k, |recs|);
  }

  lemma SingleRecord(r: Rec)
    requires r.Single? && WellFormed(r) && |r.msg.sges| <= 60
    ensures Sound(r) && RecBlocks(r) <= Fresh(r.msg)
  {
  }

  lemma SingleImage(r: Rec)
    requires r.Single? && Sound(r)
    ensures r.msg.sges != [] && |r.msg.sges[0].bytes| > INLINE_HDR
    ensures Units(r) == 3 + |Kept(Shortened(r.msg.sges))|
    ensures EthCells(r) == Cells(Eth(0, r.msg.flags.csum, INLINE_HDR, r.msg.sges[0].bytes[..2]), 16)
    ensures DataCells(r)
      == Cells(EthHdr(r.msg.sges[0].bytes[2..INLINE_HDR]), 16) + PtrCells(Kept(Shortened(r.msg.sges)))
    ensures Image(r)
      == Cells(Control(false, r.start % 0x1_0000, Units(r) % 0x40, r.msg.flags), 16) + (EthCells(r) + DataCells(r))
  {
    KeptShortened(r.msg.sges);
  }

  lemma {:induction false} MsgsConcat(s: seq<Rec>, t: seq<Rec>)
    ensures AllMsgs(s + t) == AllMsgs(s) + AllMsgs(t)
  {
    if s == [] {
      assert s + t == t;
    } else {
      assert (s + t)[1..] == s[1..] + t;
      MsgsConcat(s[1..], t);
    }
  }

  lemma MsgsAdded(recs: seq<Rec>, r: Rec, m: Msg)
    requires Msgs(r) == [m]
    ensures AllMsgs(recs + [r]) == AllMsgs(recs) + [m]
  {
    MsgsConcat(recs, [r]);
    MsgsOne(r);
  }

  lemma MsgsExtended(recs: seq<Rec>, m: Msg)
    requires recs != [] && recs[|recs| - 1].Agg?
    ensures AllMsgs(Extended(recs, m)) == AllMsgs(recs) + [m]
  {
    hide AllMsgs, Msgs, More;
    var n := |recs| - 1;
    var r, front := recs[n], recs[..n];
    LastSplit(recs);
    MsgsConcat(front, [r]);
    MsgsConcat(front, [More(r, m)]);
    MsgsOne(r);
    MsgsOne(More(r, m));
    MoreMsgs(r, m);
    ConcatAssoc(AllMsgs(front), Msgs(r), [m]);
  }

  lemma LastSplit<T>(s: seq<T>)
    requires s != []
    ensures s == s[..|s| - 1] + [s[|s| - 1]]
  {
  }

  lemma MoreMsgs(r: Rec, m: Msg)
    requires r.Agg?
    ensures Msgs(More(r, m)) == Msgs(r) + [m]
  {
  }

  lemma MsgsOne(r: Rec)
    ensures AllMsgs([r]) == Msgs(r)
  {
    assert [r][1..] == [] && AllMsgs([r]) == Msgs(r) + [];
  }

  /** A frame on its own makes a sound record that is not larger than promised. */
  lemma NewRecord(r: Rec, m: Msg, maxInline: nat)
    requires Sendable(m, maxInline) && maxInline <= MAX_INLINE
    requires r == Agg(r.start, m.inl, m.flags, |Gather(m.sges)|, [m])
    ensures Sound(r) && RecBlocks(r) <= Fresh(m) && (m.inl ==> RecBlocks(r) == Fresh(m))
  {
    assert AllKept([m][1..]) == [];
    assert AllKept([m]) == Kept(m.sges) + [];
  }

  lemma NewImage(r: Rec, m: Msg)
    requires m.sges != [] && r == Agg(r.start, m.inl, m.flags, |Gather(m.sges)|, [m]) && Sound(r)
    ensures Units(r) == if m.inl then 2 + (r.len + 19) / 16 else 2 + |Kept(m.sges)|
    ensures Image(r) == Cells(Control(true, r.start % 0x1_0000, Units(r) % 0x40, m.flags), 16) +
      (Cells(Eth(r.len, m.flags.csum, 0, []), 16) +
       (if m.inl then Cells(InlineLen(r.len), 4) + Bytes([] + Gather(m.sges)) else PtrCells(Kept(m.sges))))
  {
    assert [m][1..] == [];
    assert AllKept([m]) == Kept(m.sges) + [] == Kept(m.sges);
    assert Stream([m]) == Gather(m.sges) + [] == [] + Gather(m.sges);
  }

  lemma NewDescribed(mpw: Mpw, r: Rec, m: Msg, cnt: nat)
    requires 0 < cnt && m.sges != [] && r == Agg(r.start, m.inl, m.flags, |Gather(m.sges)|, [m]) && Sound(r)
    requires mpw.state != Closed ==> !m.flags.signaled && mpw.state.OpenedInl? == m.inl
    requires mpw.size == Units(r) && mpw.numSge == |m.sges| && mpw.len == mpw.totalLen == r.len && mpw.flags == m.flags
    requires mpw.scurPost == r.start && mpw.ctrl == 64 * (r.start % cnt) && mpw.inlData == mpw.ctrl + 36
    requires !m.inl ==> IsSlot(mpw.lastDseg, 64 * r.start + 16 * (mpw.size - 1), 64 * cnt)
    ensures mpw.state != Closed ==> Describes(mpw, r, 64 * cnt)
  {
    hide Units, WellFormed, Gather;
    BlockSlots(r.start, cnt);
    assert SumSges([m][..0]) == 0 && SumSges([m]) == |m.sges|;
    assert LastFlags(r) == m.flags;
  }

  lemma NonEmptyNext(sges: seq<Sge>, i: nat)
    requires i <= |sges|
    ensures NonEmpty(sges[i..]) ==
      if i == |sges| then [] else (if sges[i].bytes == [] then [] else [sges[i]]) + NonEmpty(sges[i + 1..])
  {
    if i < |sges| {
      assert sges[i..][0] == sges[i] && sges[i..][1..] == sges[i + 1..];
    }
  }

  lemma KeptStart(sges: seq<Sge>)
    requires sges != []
    ensures [sges[0]] + NonEmpty(sges[1..]) == Kept(sges)
  {
  }

  /** The entries kept after `done`, which are those of the first `i`. */
  lemma KeptNext(sges: seq<Sge>, i: nat, done: seq<Sge>)
    requires i <= |sges|
    requires sges != [] && done + NonEmpty(sges[i..]) == Kept(sges)
    ensures i == |sges| ==> done == Kept(sges)
    ensures i < |sges| && sges[i].bytes == [] ==> done + NonEmpty(sges[i + 1..]) == Kept(sges)
    ensures i < |sges| && sges[i].bytes != [] ==>
      (done + [sges[i]]) + NonEmpty(sges[i + 1..]) == Kept(sges) && |done| < |Kept(sges)|
  {
    hide Kept, NonEmpty;
    NonEmptyNext(sges, i);
    if i == |sges| {
      assert done + [] == done;
    } else {
      var rest := NonEmpty(sges[i + 1..]);
      if sges[i].bytes == [] {
        assert [] + rest == rest;
      } else {
        ConcatAssoc(done, [sges[i]], rest);
      }
    }
  }

  lemma PtrCellsMore(done: seq<Sge>, e: Sge)
    ensures PtrCells(done + [e]) == PtrCells(done) + Cells(PointerTo(e), 16)
  {
    PtrCellsConcat(done, [e]);
    PtrCellsOne(e);
  }

  lemma PtrCellsOne(e: Sge)
    ensures PtrCells([e]) == Cells(PointerTo(e), 16)
  {
    assert PtrCells([e][1..]) == [];
  }

  lemma {:induction false} PtrCellsConcat(s: seq<Sge>, t: seq<Sge>)
    ensures PtrCells(s + t) == PtrCells(s) + PtrCells(t)
  {
    if s == [] {
      assert s + t == t;
    } else {
      assert (s + t)[1..] == s[1..] + t;
      PtrCellsConcat(s[1..], t);
    }
  }

  /** Sixteen bytes on: either still inside the ring or at its start. */
  lemma NextUnit(slot: nat, p: nat, n: nat)
    requires n > 0 && Aligned(p, n) && IsSlot(slot, p, n)
    ensures IsSlot(if slot + 16 == n then 0 else slot + 16, p + 16, n) && Aligned(p + 16, n)
  {
    UnitRoom(p, p % n, n);
    if n > 16 {
      SlotAfter(p, n, 16);
    } else {
      NextLapSlot(p, n);
    }
  }

  /** A unit at an aligned position does not cross the end of the ring. */
  lemma UnitRoom(p: nat, slot: nat, n: nat)
    requires n > 0 && Aligned(p, n) && slot == p % n
    ensures slot + 16 <= n
  {
    ModMod(p, 16, n / 16, n);
    MultipleRoom(slot, n);
  }

  lemma MultipleRoom(slot: nat, n: nat)
    requires slot < n && slot % 16 == 0 && n % 16 == 0
    ensures slot + 16 <= n
  {
  }

  /** The frames of a list of buffers. */
  function Bodies(bufs: seq<Sge>, flags: Flags): seq<Msg> {
    if bufs == [] then [] else Bodies(bufs[..|bufs| - 1], flags) + [Msg(false, flags, [bufs[|bufs| - 1]])]
  }

  lemma BodiesNone(bufs: seq<Sge>, flags: Flags, p: seq<Msg>)
    ensures p + Bodies(bufs[..0], flags) == p
  {
  }

  lemma BodiesMore(bufs: seq<Sge>, flags: Flags, i: nat, p: seq<Msg>)
    requires i < |bufs|
    ensures p + Bodies(bufs[..i], flags) + [Msg(false, flags, [bufs[i]])] == p + Bodies(bufs[..i + 1], flags)
  {
    assert bufs[..i + 1][..i] == bufs[..i];
  }

  /** A frame in one buffer takes at most one block and is never refused. */
  lemma OneBuffer(m: Msg, maxInline: nat)
    requires !m.inl && |m.sges| == 1 && m.sges[0].bytes != []
    ensures Sendable(m, maxInline) && Fresh(m) == 1 && Gather(m.sges) == m.sges[0].bytes
  {
    assert m.sges == [m.sges[0]] + [];
    GatherCons(m.sges[0], []);
  }

  /** What was added behind all WQEs was added behind the unfinished ones. */
  lemma Behind(was: seq<Rec>, recs: seq<Rec>, tail: nat, added: seq<Msg>)
    requires tail <= |was| && tail <= |recs| && recs[..tail] == was[..tail]
    requires AllMsgs(recs) == AllMsgs(was) + added
    ensures AllMsgs(recs[tail..]) == AllMsgs(was[tail..]) + added
  {
    MsgsConcat(was[..tail], was[tail..]);
    MsgsConcat(recs[..tail], recs[tail..]);
    assert was == was[..tail] + was[tail..] && recs == recs[..tail] + recs[tail..];
    hide AllMsgs;
    CancelFront(AllMsgs(was[..tail]), AllMsgs(was[tail..]) + added, AllMsgs(recs[tail..]));
    ConcatAssoc(AllMsgs(was[..tail]), AllMsgs(was[tail..]), added);
  }

  lemma CancelFront<T>(a: seq<T>, b: seq<T>, c: seq<T>)
    ensures a + b == a + c ==> b == c
  {
    if a + b == a + c {
      assert (a + b)[|a|..] == b && (a + c)[|a|..] == c;
    }
  }
}
