/** The send queue: WQEs of varying length laid end to end, in blocks of four 16-byte
    units, around a ring; a completion names a WQE by its 16-bit starting block and frees
    everything up to it.
 */
module SendQueues {
  import opened Common
  import opened Ring
  import opened SqSizing

  /** A gather entry together with the bytes it points at. */
  datatype Sge = Sge(addr: nat, lkey: nat, bytes: seq<byte>)

  /** A fast-path request: SEND or RDMA WRITE, inline or not. */
  datatype Wr = Wr(wrId: nat, write: bool, inl: bool, signaled: bool, raddr: nat, rkey: nat, sges: seq<Sge>)

  /** One 16-byte unit of a WQE. */
  datatype Unit =
    | Blank
    | Ctrl(write: bool, idx: nat, ds: nat, signaled: bool)
    | Raddr(raddr: nat, rkey: nat)
    | Ptr(len: nat, lkey: nat, addr: nat)
    | Inline(bytes: seq<byte>)
    | Torn(was: Unit, bytes: seq<byte>)  // bytes written over a unit from its fifth byte on

  function Total(sges: seq<Sge>): nat {
    if sges == [] then 0 else |sges[0].bytes| + Total(sges[1..])
  }

  function Gather(sges: seq<Sge>): (r: seq<byte>)
    ensures |r| == Total(sges)
  {
    if sges == [] then [] else sges[0].bytes + Gather(sges[1..])
  }

  /** Host memory: the byte at an address, by memory key. */
  type Host = (nat, nat) -> byte

  /** The `n` bytes from address `addr` on. */
  function Load(host: Host, lkey: nat, addr: nat, n: nat): (r: seq<byte>)
    ensures |r| == n
  {
    seq(n, j requires 0 <= j => host(lkey, addr + j))
  }

  /** Host memory holds the bytes that the gather entries stand for. */
  ghost predicate Backed(host: Host, sges: seq<Sge>) {
    forall i :: 0 <= i < |sges| ==> Load(host, sges[i].lkey, sges[i].addr, |sges[i].bytes|) == sges[i].bytes
  }

  lemma {:induction false} GatherConcat(s: seq<Sge>, t: seq<Sge>)
    ensures Total(s + t) == Total(s) + Total(t) && Gather(s + t) == Gather(s) + Gather(t)
  {
    if s == [] {
      assert s + t == t;
    } else {
      assert (s + t)[1..] == s[1..] + t;
      GatherConcat(s[1..], t);
    }
  }

  /** The pointer segments; entries of length zero are left out. */
  function Pointers(sges: seq<Sge>): (r: seq<Unit>)
    ensures |r| <= |sges|
  {
    if sges == [] then []
    else (if sges[0].bytes == [] then [] else [Ptr(|sges[0].bytes|, sges[0].lkey, sges[0].addr)]) + Pointers(sges[1..])
  }

  /** A byte stream cut into units; a short last unit keeps its old tail. */
  function Cut(s: seq<byte>): (r: seq<Unit>)
    ensures |r| == (|s| + 15) / 16
  {
    if s == [] then [] else if |s| <= 16 then [Inline(s)] else [Inline(s[..16])] + Cut(s[16..])
  }

  /** The length word of inline data, with the inline mark in its top bit. */
  function InlineHeader(n: nat): (r: seq<byte>)
    ensures |r| == 4
  {
    var v := (n + 0x8000_0000) % U32;
    [(v / 0x100_0000) as byte, (v / 0x1_0000 % 0x100) as byte, (v / 0x100 % 0x100) as byte, (v % 0x100) as byte]
  }

  /** The entries copied before the inline limit stops the copy; all of them if it does not. */
  function Copied(sges: seq<Sge>, sofar: nat, maxInline: nat): (r: seq<Sge>)
    ensures r <= sges
    ensures sofar <= maxInline ==> sofar + Total(r) <= maxInline
  {
    if sges == [] || sofar + |sges[0].bytes| > maxInline then []
    else [sges[0]] + Copied(sges[1..], sofar + |sges[0].bytes|, maxInline)
  }

  /** The data part of a WQE, or nothing if inline data is too long. */
  function DataUnits(g: Geometry, wr: Wr): Result<seq<Unit>> {
    if !wr.inl then Ok(Pointers(wr.sges))
    else if Copied(wr.sges, 0, g.maxInline) != wr.sges then Enomem
    else if Total(wr.sges) == 0 then Ok([])
    else Ok(Cut(InlineHeader(Total(wr.sges)) + Gather(wr.sges)))
  }

  /** The WQE of a request posted at block `idx`. */
  function Build(g: Geometry, wr: Wr, idx: nat): Result<seq<Unit>> {
    var d := DataUnits(g, wr);
    if !d.Ok? then d else
    var body := (if wr.write then [Raddr(wr.raddr, wr.rkey)] else []) + d.value;
    Ok([Ctrl(wr.write, idx % 0x1_0000, (1 + |body|) % 0x40, wr.signaled)] + body)
  }

  /** What a request that is refused for its inline data has written behind the control unit; the control unit and
      the length word of the data are as they were, `was` being the unit that holds that word. */
  function Residue(g: Geometry, wr: Wr, was: Unit): seq<Unit> {
    var part := Gather(Copied(wr.sges, 0, g.maxInline));
    (if wr.write then [Raddr(wr.raddr, wr.rkey)] else []) +
    (if part == [] then [] else if |part| <= 12 then [Torn(was, part)] else [Torn(was, part[..12])] + Cut(part[12..]))
  }

  /** The unit that holds the length word of inline data. */
  function LengthWord(start: nat, wr: Wr): nat { 4 * start + if wr.write then 2 else 1 }

  function LeftBytes(units: seq<Unit>): seq<byte> {
    if units == [] then []
    else (match units[0] case Torn(_, b) => b case Inline(b) => b case _ => []) + LeftBytes(units[1..])
  }

  lemma {:induction false} CutLeft(s: seq<byte>)
    ensures LeftBytes(Cut(s)) == s && forall k :: 0 <= k < |Cut(s)| ==> Cut(s)[k].Inline?
  {
    if |s| > 16 {
      CutLeft(s[16..]);
      assert Cut(s)[1..] == Cut(s[16..]);
    } else if s != [] {
      assert Cut(s) == [Inline(s)] && Cut(s)[1..] == [];
    }
  }

  /** The bytes begin in the unit of the length word, which is as it was in front of them. */
  lemma ResiduePlace(g: Geometry, wr: Wr, start: nat, was: Unit)
    ensures var u := Residue(g, wr, was);
      forall k :: 0 <= k < |u| && u[k].Torn? ==> u[k].was == was && 4 * start + 1 + k == LengthWord(start, wr)
  {
    hide Gather, Copied, Cut;
    var part := Gather(Copied(wr.sges, 0, g.maxInline));
    if |part| > 12 { CutLeft(part[12..]); }
  }

  /** A refused request leaves its remote address and the bytes of the entries that fitted. */
  lemma ResidueHolds(g: Geometry, wr: Wr, was: Unit)
    ensures var u := Residue(g, wr, was);
      && (wr.write ==> u != [] && u[0].Raddr? && u[0].raddr == wr.raddr && u[0].rkey == wr.rkey)
      && LeftBytes(u) == Gather(Copied(wr.sges, 0, g.maxInline))
  {
    hide Gather, Copied;
    var part := Gather(Copied(wr.sges, 0, g.maxInline));
    var data := if part == [] then [] else if |part| <= 12 then [Torn(was, part)]
      else [Torn(was, part[..12])] + Cut(part[12..]);
    if |part| > 12 {
      CutLeft(part[12..]);
      assert data[1..] == Cut(part[12..]);
      assert part == part[..12] + part[12..];
    } else if part != [] {
      assert data[1..] == [];
      assert part == part + [];
    }
    assert LeftBytes(data) == part;
    if wr.write {
      assert Residue(g, wr, was)[1..] == data;
      assert part == [] + part;
    } else {
      assert Residue(g, wr, was) == data;
    }
  }

  /** Inline data that was accepted leaves room for the segments before it. When the inline
      limit has wrapped below zero, the limit on gather entries is zero: there is no data. */
  lemma InlineFits(g: Geometry, sges: seq<Sge>)
    requires 32 <= g.overhead <= g.wqeSize <= INT_MAX && g.overhead % SEG == 0 && g.wqeSize % WQE_BB == 0
    requires g.maxInline == (g.wqeSize - g.overhead - 4) % U32
    requires |sges| <= (g.wqeSize - g.overhead) / 16
    ensures var part := Copied(sges, 0, g.maxInline);
            part == [] || 32 + (4 + Total(part) + 15) / 16 * 16 <= g.wqeSize
  {
    hide Copied, Total;
    var part, room := Copied(sges, 0, g.maxInline), g.wqeSize - g.overhead;
    Whole(g.wqeSize, g.overhead);
    if room == 0 {
      assert part == [];
    } else {
      Small(room - 4);
      RoundsInto(4 + Total(part), room);
    }
  }

  lemma Whole(w: nat, o: nat)
    requires o <= w && o % SEG == 0 && w % WQE_BB == 0
    ensures (w - o) % 16 == 0 && (w - o == 0 || w - o >= 16)
  {
    var a, b := w / WQE_BB, o / SEG;
    assert w == 16 * (4 * a) && o == 16 * b;
    assert w - o == 16 * (4 * a - b);
  }

  lemma Small(x: nat)
    requires x < U32
    ensures x % U32 == x
  {
  }

  lemma RoundsInto(y: nat, x: nat)
    requires y <= x && x % 16 == 0
    ensures (y + 15) / 16 * 16 <= x
  {
  }

  /** A WQE of the fast path never outgrows the computed WQE size, and neither does what a
      refused request leaves behind. */
  lemma FastPathFits(a: Attr, g: Geometry, wr: Wr, idx: nat)
    requires Sized(a, g) && |wr.sges| <= g.maxGs
    ensures var b := Build(g, wr, idx); b.Ok? ==> SEG * |b.value| <= g.wqeSize
    ensures forall was :: Build(g, wr, idx).Ok? || SEG * (1 + |Residue(g, wr, was)|) <= g.wqeSize
  {
    ImageFits(a, g, wr, idx);
    hide *;
    forall was
      ensures SEG * (1 + |Residue(g, wr, was)|) <= g.wqeSize
    {
      ResidueFits(a, g, wr, was);
    }
  }

  lemma ImageFits(a: Attr, g: Geometry, wr: Wr, idx: nat)
    requires Sized(a, g) && |wr.sges| <= g.maxGs
    ensures var b := Build(g, wr, idx); b.Ok? ==> SEG * |b.value| <= g.wqeSize
  {
    assert Total([]) == 0;
    hide Overhead, PowerOfTwo, Pointers, Cut, Gather, Copied, Total, InlineHeader;
    InlineFits(g, wr.sges);
  }

  lemma ResidueFits(a: Attr, g: Geometry, wr: Wr, was: Unit)
    requires Sized(a, g) && |wr.sges| <= g.maxGs
    ensures SEG * (1 + |Residue(g, wr, was)|) <= g.wqeSize
  {
    assert Total([]) == 0;
    hide Overhead, PowerOfTwo, Cut, Gather, Copied, Total, Residue;
    ResidueSize(g, wr, was);
    InlineFits(g, wr.sges);
  }

  lemma ResidueSize(g: Geometry, wr: Wr, was: Unit)
    ensures var part := Gather(Copied(wr.sges, 0, g.maxInline));
      |Residue(g, wr, was)| == (if wr.write then 1 else 0) + if part == [] then 0 else (4 + |part| + 15) / 16
  {
    hide Cut, Gather, Copied;
  }

  /** A posted WQE: where it starts, its units, and what software remembers of it. */
  datatype Wqe = Wqe(start: nat, image: seq<Unit>, wrId: nat, signaled: bool)

  function Blocks(w: Wqe): nat { (|w.image| + 3) / 4 }

  /** Where WQE `k` starts, or the next one will. */
  function StartOf(sent: seq<Wqe>, scur: nat, k: nat): nat
    requires k <= |sent|
  {
    if k < |sent| then sent[k].start else scur
  }

  /** WQEs lie end to end, each of one to `bbs` blocks. */
  ghost predicate Laid(sent: seq<Wqe>, scur: nat, bbs: nat)
  {
    forall k: nat :: k < |sent| ==> Link(sent, scur, bbs, k)
  }

  ghost predicate Link(sent: seq<Wqe>, scur: nat, bbs: nat, k: nat)
    requires k < |sent|
  {
    1 <= Blocks(sent[k]) <= bbs && StartOf(sent, scur, k + 1) == sent[k].start + Blocks(sent[k])
  }

  /** Later WQEs start later, at least one block each. */
  lemma {:induction false} StartsGrow(sent: seq<Wqe>, scur: nat, bbs: nat, j: nat, k: nat)
    requires Laid(sent, scur, bbs) && j <= k <= |sent|
    ensures StartOf(sent, scur, j) + (k - j) <= StartOf(sent, scur, k)
    decreases k - j
  {
    if j < k {
      StartsGrow(sent, scur, bbs, j, k - 1);
      assert Link(sent, scur, bbs, k - 1);
    }
  }

  /** ... and at most `bbs` blocks each. */
  lemma {:induction false} StartsBounded(sent: seq<Wqe>, scur: nat, bbs: nat, j: nat, k: nat)
    requires Laid(sent, scur, bbs) && j <= k <= |sent|
    ensures StartOf(sent, scur, k) <= StartOf(sent, scur, j) + (k - j) * bbs
    decreases k - j
  {
    if j < k {
      StartsBounded(sent, scur, bbs, j, k - 1);
      MulSucc(k - 1 - j, bbs);
      assert Link(sent, scur, bbs, k - 1);
    }
  }

  /** The queue's memory. `sent` is every WQE ever posted, `tail` the number of WQEs known
      to be complete, `scur` the block where the next WQE will start. */
  datatype Sq = Sq(ring: seq<Unit>, wrid: seq<nat>, wqeHead: seq<nat>, sent: seq<Wqe>, tail: nat, scur: nat)
  {
    ghost predicate Shape(bbs: nat)
    {
      && 0 < |wrid| == |wqeHead| && |ring| == 4 * |wrid|
      && tail <= |sent| && Laid(sent, scur, bbs)
      && Oldest() <= scur <= Oldest() + |wrid|
    }

    /** The first block that is still in use. */
    ghost function Oldest(): nat
      requires tail <= |sent|
    {
      StartOf(sent, scur, tail)
    }

    /** The outstanding WQEs lie unharmed in the ring, and the tables indexed by starting
        block know their ids and ordinals. */
    ghost predicate Inv(bbs: nat)
    {
      && Shape(bbs)
      && (forall k: nat :: tail <= k < |sent| ==> Intact(ring, sent[k].start, sent[k].image))
      && (forall k: nat :: tail <= k < |sent| ==> At(wrid, sent[k].start) == sent[k].wrId)
      && (forall k: nat :: tail <= k < |sent| ==> At(wqeHead, sent[k].start) == k)
    }
  }

  /** The ring holds `image` from block `start` on. */
  ghost predicate Intact(ring: seq<Unit>, start: nat, image: seq<Unit>)
    requires 0 < |ring|
  {
    forall p: nat :: 4 * start <= p < 4 * start + |image| ==> At(ring, p) == image[p - 4 * start]
  }

  /** The ring holds `units` from position `at` on. */
  ghost predicate Lies(ring: seq<Unit>, at: nat, units: seq<Unit>)
    requires 0 < |ring|
  {
    forall p: nat :: at <= p < at + |units| ==> At(ring, p) == units[p - at]
  }

  /** Fewer than `maxPost` outstanding WQEs leave room for one more of `bbs` blocks. */
  lemma RoomForOne(q: Sq, bbs: nat, maxPost: nat)
    requires q.Shape(bbs) && |q.sent| - q.tail < maxPost && maxPost * bbs <= |q.wrid|
    ensures q.scur + bbs <= q.Oldest() + |q.wrid|
  {
    StartsBounded(q.sent, q.scur, bbs, q.tail, |q.sent|);
    MulSucc(|q.sent| - q.tail, bbs);
    MulMono(|q.sent| - q.tail + 1, maxPost, bbs);
  }

  lemma Placed(q: Sq, bbs: nat, k: nat)
    requires q.Shape(bbs) && q.tail <= k < |q.sent|
    ensures q.Oldest() <= q.sent[k].start && q.sent[k].start + Blocks(q.sent[k]) <= q.scur
    ensures |q.sent[k].image| <= 4 * Blocks(q.sent[k])
    ensures q.sent[k].start < q.scur
  {
    StartsGrow(q.sent, q.scur, bbs, q.tail, k);
    StartsGrow(q.sent, q.scur, bbs, k + 1, |q.sent|);
    assert Link(q.sent, q.scur, bbs, k);
  }

  lemma ShapeOf(q: Sq, bbs: nat)
    requires q.Inv(bbs)
    ensures q.Shape(bbs)
  {
  }

  lemma Outstanding(q: Sq, bbs: nat, k: nat)
    requires q.Inv(bbs) && q.tail <= k < |q.sent|
    ensures Intact(q.ring, q.sent[k].start, q.sent[k].image)
  {
  }

  /** Writing behind the outstanding WQEs harms none of them. */
  lemma WriteKeepsInv(q: Sq, ring': seq<Unit>, bbs: nat)
    requires q.Inv(bbs) && |ring'| == |q.ring|
    requires forall p: nat :: 4 * q.Oldest() <= p < 4 * q.scur ==> At(ring', p) == At(q.ring, p)
    ensures q.(ring := ring').Inv(bbs)
  {
    hide At, Laid, Blocks;
    forall k: nat | q.tail <= k < |q.sent|
      ensures Intact(ring', q.sent[k].start, q.sent[k].image)
    {
      Placed(q, bbs, k);
      assert Intact(q.ring, q.sent[k].start, q.sent[k].image);
    }
  }

  /** `b` with `v` put at position `x`, in the window from `lo`. */
  ghost predicate Put<T>(b: seq<T>, b': seq<T>, lo: nat, x: nat, v: T)
  {
    0 < |b| == |b'| && forall p: nat :: lo <= p < lo + |b| ==> At(b', p) == if p == x then v else At(b, p)
  }

  /** Posting one WQE that has been written to the ring. */
  lemma PostKeepsInv(q: Sq, q': Sq, bbs: nat, w: Wqe)
    requires q.Inv(bbs) && q.scur + bbs <= q.Oldest() + |q.wrid|
    requires w.start == q.scur && 1 <= Blocks(w) <= bbs && Intact(q.ring, w.start, w.image)
    requires Put<nat>(q.wrid, q'.wrid, q.Oldest(), q.scur, w.wrId)
    requires Put<nat>(q.wqeHead, q'.wqeHead, q.Oldest(), q.scur, |q.sent|)
    requires q' == q.(wrid := q'.wrid, wqeHead := q'.wqeHead, sent := q.sent + [w], scur := q.scur + Blocks(w))
    ensures q'.Inv(bbs)
  {
    LaidAppend(q.sent, q.scur, bbs, w);
    assert 1 <= Blocks(w) <= bbs;
    hide At, Laid, Blocks, Intact;
    assert q'.Oldest() == q.Oldest();
    forall k: nat | q.tail <= k < |q'.sent|
      ensures Intact(q'.ring, q'.sent[k].start, q'.sent[k].image)
      ensures At(q'.wrid, q'.sent[k].start) == q'.sent[k].wrId && At(q'.wqeHead, q'.sent[k].start) == k
    {
      if k < |q.sent| {
        assert q'.sent[k] == q.sent[k] && Intact(q.ring, q.sent[k].start, q.sent[k].image);
        Placed(q, bbs, k);
      }
    }
  }

  lemma LaidAppend(sent: seq<Wqe>, scur: nat, bbs: nat, w: Wqe)
    requires Laid(sent, scur, bbs) && w.start == scur && 1 <= Blocks(w) <= bbs
    ensures Laid(sent + [w], scur + Blocks(w), bbs)
  {
    hide Blocks;
    var sent', scur' := sent + [w], scur + Blocks(w);
    forall k: nat | k < |sent'|
      ensures Link(sent', scur', bbs, k)
    {
      assert k < |sent| ==> Link(sent, scur, bbs, k);
    }
  }

  /** A completion for WQE `c` lets everything up to it go. */
  lemma CompleteKeepsInv(q: Sq, bbs: nat, c: nat)
    requires q.Inv(bbs) && q.tail <= c < |q.sent|
    ensures q.(tail := c + 1).Inv(bbs)
  {
    StartsGrow(q.sent, q.scur, bbs, q.tail, c + 1);
    StartsGrow(q.sent, q.scur, bbs, c + 1, |q.sent|);
  }

  /** A power of two up to 2^16 divides 2^16. */
  lemma {:induction false} Cofactor(n: nat, top: nat) returns (m: nat)
    requires PowerOfTwo(n) && PowerOfTwo(top) && n <= top
    ensures n * m == top && m > 0
    decreases top
  {
    if n == 1 {
      m := top;
    } else {
      m := Cofactor(n / 2, top / 2);
      assert n * m == 2 * (n / 2 * m);
    }
  }

  lemma PostBlocks(g: Geometry, a: Attr)
    requires Sized(a, g)
    ensures 1 <= g.wqeSize / WQE_BB && g.maxPost * (g.wqeSize / WQE_BB) <= g.wqeCnt
  {
    hide Overhead, PowerOfTwo;
    var b := g.wqeSize / WQE_BB;
    assert g.wqeSize == WQE_BB * b && 32 <= g.overhead <= g.wqeSize;
    assert g.maxPost * (WQE_BB * b) == WQE_BB * (g.maxPost * b);
  }

  class SendQueue {
    const g: Geometry
    const ring: array<Unit>
    const wrid: array<nat>
    const wqeHead: array<nat>
    var head: nat
    var tail: nat
    var scur: nat
    var db: nat  // the 16-bit doorbell record

    var sent: seq<Wqe>  // what the device has been handed, in order

    ghost const a: Attr

    ghost function Q(): Sq
      reads this, ring, wrid, wqeHead
    {
      Sq(ring[..], wrid[..], wqeHead[..], sent, tail, scur)
    }

    ghost predicate Valid()
      reads this, ring, wrid, wqeHead
    {
      && Sized(a, g) && wrid != wqeHead
      && wrid.Length == wqeHead.Length == g.wqeCnt && ring.Length == 4 * g.wqeCnt && 0 < g.wqeCnt
      && tail <= head == |sent| && db == scur % 0x1_0000
      && Q().Inv(g.wqeSize / WQE_BB)
    }

    constructor (attr: Attr, geo: Geometry)
      requires Sized(attr, geo)
      ensures Valid() && fresh(ring) && fresh(wrid) && fresh(wqeHead)
      ensures a == attr && g == geo && sent == [] && tail == 0
    {
      a, g := attr, geo;
      ring := new Unit[4 * geo.wqeCnt](_ => Blank);
      wrid := new nat[geo.wqeCnt](_ => 0);
      wqeHead := new nat[geo.wqeCnt](_ => 0);
      head, tail, scur, db, sent := 0, 0, 0, 0, [];
    }

    /** Would one more WQE, after `nreq` not yet counted ones, be too many? */
    predicate Overflow(nreq: nat)
      reads this
    {
      head - tail + nreq >= g.maxPost
    }

    /** Posts a list of requests, up to the first that is refused: for lack of room, for too
        many gather entries, or for too much inline data. */
    method PostSend(wrs: seq<Wr>) returns (n: nat, err: bool)
      requires Valid()
      modifies this`head, this`scur, this`db, this`sent, ring, wrid, wqeHead
      ensures Valid() && tail == old(tail)
      ensures n == Accepted(g, |old(sent)| - tail, wrs) && (err <==> n < |wrs|)
      ensures |sent| == |old(sent)| + n && old(sent) <= sent
      ensures forall i :: 0 <= i < n ==> Encodes(g, sent[|old(sent)| + i], wrs[i])
      ensures forall i :: 0 <= i < n ==> ReadsBack(ring[..], sent[|old(sent)| + i].start, wrs[i])
      ensures err ==> |sent| - tail >= g.maxPost || |wrs[n].sges| > g.maxGs || !DataUnits(g, wrs[n]).Ok?
    {
      hide Sq.Inv, Sized, Accepted, DataUnits, ReadsBack, Encodes, Lies, Residue, LengthWord, At;
      assert wrs[0..] == wrs;
      var nreq := 0;
      err := false;
      while nreq < |wrs|
        invariant 0 <= nreq <= |wrs| && !err && head == old(head) && tail == old(tail)
        invariant Accepted(g, |old(sent)| - tail, wrs) == nreq + Accepted(g, |sent| - tail, wrs[nreq..])
        invariant |sent| == head + nreq && old(sent) <= sent && tail <= |sent|
        invariant Q().Inv(g.wqeSize / WQE_BB)
        invariant forall i :: 0 <= i < nreq ==> Encodes(g, sent[|old(sent)| + i], wrs[i])
        decreases |wrs| - nreq
      {
        AcceptedNext(g, |sent| - tail, wrs, nreq);
        if Overflow(nreq) || |wrs[nreq].sges| > g.maxGs {
          err := true;
          break;
        }
        var ok := PostOne(wrs[nreq], nreq);
        if !ok {
          err := true;
          break;
        }
        nreq := nreq + 1;
      }
      n := nreq;
      head := head + nreq;
      db := scur % 0x1_0000;
      forall i | 0 <= i < n
        ensures ReadsBack(ring[..], sent[|old(sent)| + i].start, wrs[i])
      {
        Outstanding(Q(), g.wqeSize / WQE_BB, |old(sent)| + i);
        EncodedReadsBack(g, sent[|old(sent)| + i], wrs[i], ring[..]);
      }
    }

    method PostOne(wr: Wr, nreq: nat) returns (ok: bool)
      requires Sized(a, g) && wrid.Length == wqeHead.Length == g.wqeCnt && ring.Length == 4 * g.wqeCnt && 0 < g.wqeCnt
      requires wrid != wqeHead && tail <= |sent| == head + nreq && Q().Inv(g.wqeSize / WQE_BB)
      requires !Overflow(nreq) && |wr.sges| <= g.maxGs
      modifies this`scur, this`sent, ring, wrid, wqeHead
      ensures Q().Inv(g.wqeSize / WQE_BB)
      ensures ok <==> DataUnits(g, wr).Ok?
      ensures !ok ==> sent == old(sent) && scur == old(scur)
      ensures !ok ==> forall p: nat :: 4 * old(Q().Oldest()) <= p <= 4 * scur ==>
        At(ring[..], p) == At(old(ring[..]), p)
      ensures !ok ==> Lies(ring[..], 4 * scur + 1, Residue(g, wr, At(old(ring[..]), LengthWord(scur, wr))))
      ensures ok ==> |sent| == |old(sent)| + 1 && old(sent) <= sent && Encodes(g, sent[|old(sent)|], wr)
      ensures ok ==> ReadsBack(ring[..], old(scur), wr)
    {
      hide Sq.Inv, Sq.Shape, Sized, Build, Residue, DataUnits, Intact, ReadsBack, Lies, At, LengthWord;
      ghost var bbs := g.wqeSize / WQE_BB;
      ShapeOf(Q(), bbs);
      PostBlocks(g, a);
      RoomForOne(Q(), bbs, g.maxPost);
      UnitsFit(a, g, wr, scur);
      var b := Build(g, wr, scur);
      ok := b.Ok?;
      if ok {
        PutImage(0, b.value, bbs);
        EncodedReadsBack(g, Wqe(scur, b.value, wr.wrId, wr.signaled), wr, ring[..]);
        Record(wr, b.value, nreq, bbs);
      } else {
        LeaveResidue(wr, bbs);
      }
    }

    /** Writes what a refused request leaves behind the control unit. */
    method LeaveResidue(wr: Wr, ghost bbs: nat)
      requires 0 < g.wqeCnt && ring.Length == 4 * g.wqeCnt && wrid.Length == g.wqeCnt
      requires tail <= |sent| && Q().Inv(bbs) && scur + bbs <= Q().Oldest() + g.wqeCnt
      requires forall was :: 1 + |Residue(g, wr, was)| <= 4 * bbs
      modifies ring
      ensures Q().Inv(bbs) && Lies(ring[..], 4 * scur + 1, Residue(g, wr, At(old(ring[..]), LengthWord(scur, wr))))
      ensures forall p: nat :: 4 * Q().Oldest() <= p < 4 * scur + 1 ==> At(ring[..], p) == At(old(ring[..]), p)
    {
      hide Sq.Inv, Residue, Lies, LengthWord;
      var was := ring[LengthWord(scur, wr) % ring.Length];
      assert was == At(ring[..], LengthWord(scur, wr));
      hide At;
      PutImage(1, Residue(g, wr, was), bbs);
    }

    /** Writes the units of a WQE, from its unit `from` on, behind the outstanding WQEs. */
    method PutImage(from: nat, image: seq<Unit>, ghost bbs: nat)
      requires 0 < g.wqeCnt && ring.Length == 4 * g.wqeCnt && wrid.Length == g.wqeCnt
      requires tail <= |sent| && Q().Inv(bbs) && scur + bbs <= Q().Oldest() + g.wqeCnt && from + |image| <= 4 * bbs
      modifies ring
      ensures Q().Inv(bbs) && (from == 0 ==> Intact(ring[..], scur, image)) && Lies(ring[..], 4 * scur + from, image)
      ensures forall p: nat :: 4 * Q().Oldest() <= p < 4 * scur + from ==> At(ring[..], p) == At(old(ring[..]), p)
    {
      ghost var q := Q();
      assert q.Oldest() <= scur;
      hide Sq.Inv;
      WriteUnits(from, image, q.Oldest());
      WriteKeepsInv(q, ring[..], bbs);
    }

    /** Notes the WQE just written and moves on behind it. */
    method Record(wr: Wr, image: seq<Unit>, nreq: nat, ghost bbs: nat)
      requires wrid.Length == wqeHead.Length == g.wqeCnt && 0 < g.wqeCnt && wrid != wqeHead
      requires ring.Length > 0 && tail <= |sent| == head + nreq && Q().Inv(bbs)
      requires scur + bbs <= Q().Oldest() + g.wqeCnt && 1 <= |image| <= 4 * bbs
      requires Intact(ring[..], scur, image)
      modifies this`scur, this`sent, wrid, wqeHead
      ensures Q().Inv(bbs) && sent == old(sent) + [Wqe(old(scur), image, wr.wrId, wr.signaled)]
    {
      ghost var q := Q();
      assert q.Oldest() <= scur;
      hide Sq.Inv, Intact, Laid;
      var w := Wqe(scur, image, wr.wrId, wr.signaled);
      var idx := scur % g.wqeCnt;
      wrid[idx] := wr.wrId;
      wqeHead[idx] := head + nreq;
      PutAt(q.wrid, wrid[..], q.Oldest(), scur, wr.wrId);
      PutAt(q.wqeHead, wqeHead[..], q.Oldest(), scur, |sent|);
      scur := scur + (|image| * 16 + WQE_BB - 1) / WQE_BB;
      sent := sent + [w];
      PostKeepsInv(q, Q(), bbs, w);
    }

    /** Writes units of a WQE at the current block, around the end of the ring. */
    method WriteUnits(from: nat, image: seq<Unit>, ghost lo: nat)
      requires 0 < g.wqeCnt && ring.Length == 4 * g.wqeCnt
      requires lo <= scur && 4 * scur + from + |image| <= 4 * lo + ring.Length
      modifies ring
      ensures forall p: nat :: 4 * lo <= p < 4 * lo + ring.Length ==>
        At(ring[..], p) ==
          if 4 * scur + from <= p < 4 * scur + from + |image| then image[p - 4 * scur - from] else At(old(ring[..]), p)
    {
      hide At;
      ghost var at := 4 * scur + from;
      for i := 0 to |image|
        invariant forall p: nat :: 4 * lo <= p < 4 * lo + ring.Length ==>
          At(ring[..], p) == if at <= p < at + i then image[p - at] else At(old(ring[..]), p)
      {
        ghost var before := ring[..];
        ring[(4 * scur + from + i) % ring.Length] := image[i];
        assert ring[..] == before[(at + i) % |before| := image[i]];
        UpdateAt(before, at + i, image[i], 4 * lo);
      }
    }

    /** Handles the completion that the device raised for WQE `c`, of which it reports the
        16-bit starting block. */
    method Complete(wqeCounter: nat, ghost c: nat) returns (wrId: nat)
      requires Valid() && tail <= c < |sent| && wqeCounter == sent[c].start % 0x1_0000
      requires Named(sent[c].start, g.wqeCnt)
      modifies this`tail
      ensures Valid() && tail == c + 1 && wrId == sent[c].wrId
    {
      hide Sq.Inv, PowerOfTwo, Overhead;
      CompleteKeepsInv(Q(), g.wqeSize / WQE_BB, c);
      Lookup(Q(), g.wqeSize / WQE_BB, c);
      var idx := wqeCounter % g.wqeCnt;
      wrId := wrid[idx];
      tail := wqeHead[idx] + 1;
    }
  }

  /** The 16-bit block number of an outstanding WQE, if it names its block, leads to its own table entries. */
  lemma Lookup(q: Sq, bbs: nat, c: nat)
    requires q.Inv(bbs) && q.tail <= c < |q.sent| && Named(q.sent[c].start, |q.wrid|)
    ensures var idx := q.sent[c].start % 0x1_0000 % |q.wrid|;
            q.wrid[idx] == q.sent[c].wrId && q.wqeHead[idx] == c
  {
    assert At(q.wrid, q.sent[c].start) == q.sent[c].wrId && At(q.wqeHead, q.sent[c].start) == c;
  }

  /** The 16-bit number of block `p` leads to its slot in a ring of `n` blocks. */
  ghost predicate Named(p: nat, n: nat)
    requires n > 0
  {
    p % 0x1_0000 % n == p % n
  }

  /** A 16-bit block number is enough exactly for rings of at most 2^16 blocks. */
  lemma SixteenBits(n: nat)
    requires PowerOfTwo(n)
    ensures (forall p: nat :: Named(p, n)) <==> n <= 0x1_0000
  {
    LargePower();
    assert n > 0;
    hide Named, PowerOfTwo;
    if n <= 0x1_0000 {
      forall p: nat
        ensures Named(p, n)
      {
        NamedBelow(p, n);
      }
    } else {
      NotNamed(n);
    }
  }

  lemma NamedBelow(p: nat, n: nat)
    requires PowerOfTwo(n) && n <= 0x1_0000 && PowerOfTwo(0x1_0000)
    ensures Named(p, n)
  {
    hide PowerOfTwo;
    var m := Cofactor(n, 0x1_0000);
    ModMod(p, n, m, 0x1_0000);
  }

  lemma NamedInRing(q: SendQueue, c: nat)
    requires q.Valid() && q.g.wqeCnt <= 0x1_0000 && c < |q.sent|
    ensures Named(q.sent[c].start, q.g.wqeCnt)
  {
    hide Sq.Inv, Named, PowerOfTwo, Overhead;
    LargePower();
    NamedBelow(q.sent[c].start, q.g.wqeCnt);
  }

  lemma NotNamed(n: nat)
    requires n > 0x1_0000
    ensures !Named(0x1_0000, n)
  {
  }

  /** How many requests of a list are taken with `out` of them outstanding: those before the first that finds no room,
      has too many gather entries or too much inline data. */
  function Accepted(g: Geometry, out: int, wrs: seq<Wr>): (n: nat)
    ensures n <= |wrs|
    decreases |wrs|
  {
    if wrs == [] || out >= g.maxPost || |wrs[0].sges| > g.maxGs || !DataUnits(g, wrs[0]).Ok? then 0
    else 1 + Accepted(g, out + 1, wrs[1..])
  }

  lemma AcceptedNext(g: Geometry, out: int, wrs: seq<Wr>, n: nat)
    requires n < |wrs|
    ensures Accepted(g, out, wrs[n..]) ==
            if out >= g.maxPost || |wrs[n].sges| > g.maxGs || !DataUnits(g, wrs[n]).Ok? then 0
            else 1 + Accepted(g, out + 1, wrs[n + 1..])
  {
    hide DataUnits;
  }

  lemma UnitsFit(a: Attr, g: Geometry, wr: Wr, idx: nat)
    requires Sized(a, g) && |wr.sges| <= g.maxGs
    ensures Build(g, wr, idx).Ok? <==> DataUnits(g, wr).Ok?
    ensures Build(g, wr, idx).Ok? ==> 1 <= |Build(g, wr, idx).value|
    ensures var b := Build(g, wr, idx); b.Ok? ==> |b.value| <= 4 * (g.wqeSize / WQE_BB)
    ensures !Build(g, wr, idx).Ok? ==> forall was :: 1 + |Residue(g, wr, was)| <= 4 * (g.wqeSize / WQE_BB)
  {
    FastPathFits(a, g, wr, idx);
  }

  /** WQE `w` is request `wr`, laid out for the place where it stands. */
  ghost predicate Encodes(g: Geometry, w: Wqe, wr: Wr)
  {
    w.wrId == wr.wrId && w.signaled == wr.signaled && Build(g, wr, w.start) == Ok(w.image)
  }

  // ---------------------------------------------------------------- a WQE as the device reads it

  /** What the device is asked to do: the remote address and key are 0 for a send. */
  datatype Job = Job(write: bool, signaled: bool, block: nat, raddr: nat, rkey: nat, data: seq<byte>)

  /** The job that a request at block `start` means. */
  function Meant(wr: Wr, start: nat): Job {
    Job(wr.write, wr.signaled, start % 0x1_0000, if wr.write then wr.raddr else 0, if wr.write then wr.rkey else 0,
        Gather(wr.sges))
  }

  /** The device fetches as many units as the control unit tells, and reads the job off them. */
  function ReadAt(ring: seq<Unit>, start: nat, host: Host): Option<Job>
    requires 0 < |ring|
  {
    var c := At(ring, 4 * start);
    if c.Ctrl? then Read(Fetched(ring, start, c.ds), host) else None
  }

  function Fetched(ring: seq<Unit>, start: nat, n: nat): seq<Unit>
    requires 0 < |ring|
  {
    seq(n, i requires 0 <= i => At(ring, 4 * start + i))
  }

  function Read(units: seq<Unit>, host: Host): Option<Job> {
    if |units| >= 1 && units[0].Ctrl? && !units[0].write then
      Some(Job(false, units[0].signaled, units[0].idx, 0, 0, Data(units[1..], host)))
    else if |units| >= 2 && units[0].Ctrl? && units[1].Raddr? then
      Some(Job(true, units[0].signaled, units[0].idx, units[1].raddr, units[1].rkey, Data(units[2..], host)))
    else None
  }

  /** The data of a WQE: inline bytes, as many as their length word tells, or what the pointers lead to. */
  function Data(units: seq<Unit>, host: Host): seq<byte> {
    if units == [] || !units[0].Inline? then Scattered(units, host)
    else
      var s := Joined(units);
      if |s| < 4 then [] else s[4..][..Min(|s| - 4, BigEndian(s[..4]) % 0x8000_0000)]
  }

  function Scattered(units: seq<Unit>, host: Host): seq<byte> {
    if units == [] then []
    else
      (if units[0].Ptr? then Load(host, units[0].lkey, units[0].addr, units[0].len) else []) +
      Scattered(units[1..], host)
  }

  function Joined(units: seq<Unit>): seq<byte> {
    if units == [] then [] else (if units[0].Inline? then units[0].bytes else []) + Joined(units[1..])
  }

  function BigEndian(b: seq<byte>): nat
    requires |b| == 4
  {
    b[0] as nat * 0x100_0000 + b[1] as nat * 0x1_0000 + b[2] as nat * 0x100 + b[3] as nat
  }

  /** The units of a request's WQE: one of control, one of remote address, and those of its data. */
  function Size(wr: Wr): nat {
    1 + (if wr.write then 1 else 0) +
    if !wr.inl then |Pointers(wr.sges)| else if Total(wr.sges) == 0 then 0 else (4 + Total(wr.sges) + 15) / 16
  }

  /** The length word reads back as the length, with the inline mark in the top bit. */
  lemma HeaderReads(n: nat)
    requires n < 0x8000_0000
    ensures BigEndian(InlineHeader(n)) == 0x8000_0000 + n && BigEndian(InlineHeader(n)) % 0x8000_0000 == n
  {
    var v := 0x8000_0000 + n;
    HeaderBytes(n);
    Digits(v);
    hide InlineHeader;
    Small(v);
  }

  lemma HeaderBytes(n: nat)
    requires n < 0x8000_0000
    ensures var v, h := 0x8000_0000 + n, InlineHeader(n);
      && h[0] as nat == v / 0x100_0000 && h[1] as nat == v / 0x1_0000 % 0x100
      && h[2] as nat == v / 0x100 % 0x100 && h[3] as nat == v % 0x100
  {
  }

  lemma Digits(v: nat)
    requires v < U32
    ensures v == v / 0x100_0000 * 0x100_0000 + v / 0x1_0000 % 0x100 * 0x1_0000 + v / 0x100 % 0x100 * 0x100 + v % 0x100
  {
    var a := v / 0x100;
    var b := a / 0x100;
    assert v / 0x1_0000 == b && v / 0x100_0000 == b / 0x100;
  }

  lemma {:induction false} CutStream(s: seq<byte>, n: nat)
    requires n <= |Cut(s)|
    ensures Joined(Cut(s)[..n]) == s[..Min(16 * n, |s|)]
    ensures s != [] ==> Cut(s)[0].Inline?
  {
    if n > 0 && |s| > 16 {
      CutStream(s[16..], n - 1);
      assert Cut(s)[..n] == [Inline(s[..16])] + Cut(s[16..])[..n - 1];
    } else if n > 0 {
      assert Cut(s)[..n] == [Inline(s)];
    }
  }

  /** The first `n` pointers lead to less than all the data, unless they are all there are. */
  lemma {:induction false} PointersReach(sges: seq<Sge>, host: Host, n: nat)
    requires Backed(host, sges) && n <= |Pointers(sges)|
    ensures var d := Scattered(Pointers(sges)[..n], host);
      if n == |Pointers(sges)| then d == Gather(sges) else |d| < Total(sges)
    ensures Pointers(sges) == [] || Pointers(sges)[0].Ptr?
  {
    if sges != [] {
      var rest := Pointers(sges[1..]);
      if sges[0].bytes == [] {
        PointersReach(sges[1..], host, n);
        assert Pointers(sges) == rest;
      } else {
        var p := Ptr(|sges[0].bytes|, sges[0].lkey, sges[0].addr);
        assert Pointers(sges) == [p] + rest;
        PointersReach(sges[1..], host, if n == 0 then 0 else n - 1);
        if n > 0 {
          assert ([p] + rest)[..n] == [p] + rest[..n - 1];
        }
      }
    }
  }

  lemma InlineReads(s: seq<byte>, host: Host)
    requires 4 < |s| && BigEndian(s[..4]) % 0x8000_0000 == |s| - 4
    ensures Data(Cut(s), host) == s[4..]
  {
    CutStream(s, |Cut(s)|);
    hide BigEndian, Cut, Joined;
    assert Cut(s)[..|Cut(s)|] == Cut(s);
    assert s[..|s|] == s;
  }

  lemma InlineCutShort(s: seq<byte>, host: Host, n: nat)
    requires 4 < |s| && n < |Cut(s)|
    ensures |Data(Cut(s)[..n], host)| < |s| - 4
  {
    CutStream(s, n);
    hide BigEndian, Cut, Joined;
  }

  lemma PointersData(sges: seq<Sge>, host: Host, n: nat)
    requires Backed(host, sges) && n <= |Pointers(sges)|
    ensures var d := Data(Pointers(sges)[..n], host);
      if n == |Pointers(sges)| then d == Gather(sges) else |d| < Total(sges)
  {
    PointersReach(sges, host, n);
    hide Pointers, Gather, Total, Joined, Scattered, BigEndian;
  }

  lemma InlineData(data: seq<byte>, host: Host, n: nat)
    requires data != [] && n <= |Cut(InlineHeader(|data|) + data)|
    requires n == |Cut(InlineHeader(|data|) + data)| ==> n < 0x40
    ensures var u := Cut(InlineHeader(|data|) + data); var d := Data(u[..n], host);
      if n == |u| then d == data else |d| < |data|
  {
    var s := InlineHeader(|data|) + data;
    hide Data, InlineHeader, Cut;
    if n == |Cut(s)| {
      InlineWhole(data, host);
      assert Cut(s)[..n] == Cut(s);
    } else {
      InlineCutShort(s, host, n);
    }
  }

  lemma InlineWhole(data: seq<byte>, host: Host)
    requires 0 < |data| < 0x8000_0000
    ensures Data(Cut(InlineHeader(|data|) + data), host) == data
  {
    HeaderReads(|data|);
    hide Data, BigEndian, InlineHeader, Cut;
    var s := InlineHeader(|data|) + data;
    assert s[..4] == InlineHeader(|data|) && s[4..] == data;
    InlineReads(s, host);
  }

  /** The first `n` data units of an accepted request hold less than all the data, unless they are all there are. */
  lemma DataReach(g: Geometry, wr: Wr, host: Host, n: nat)
    requires DataUnits(g, wr).Ok? && Backed(host, wr.sges) && n <= |DataUnits(g, wr).value|
    requires n == |DataUnits(g, wr).value| ==> n < 0x40
    ensures var u := DataUnits(g, wr).value; var d := Data(u[..n], host);
      if n == |u| then d == Gather(wr.sges) else |d| < Total(wr.sges)
  {
    hide Backed, Pointers, Cut, Gather, Total, Copied, InlineHeader;
    if !wr.inl {
      PointersData(wr.sges, host, n);
    } else if Total(wr.sges) != 0 {
      InlineData(Gather(wr.sges), host, n);
    }
  }

  lemma ImageSize(g: Geometry, wr: Wr, start: nat)
    requires DataUnits(g, wr).Ok?
    ensures Build(g, wr, start).Ok? && |Build(g, wr, start).value| == Size(wr)
    ensures |DataUnits(g, wr).value| == Size(wr) - if wr.write then 2 else 1
  {
    hide Cut, Gather, Copied, Pointers;
  }

  /** What is read off the first `n` units of a WQE is right if its data is. */
  lemma ReadsFirst(g: Geometry, wr: Wr, start: nat, host: Host, n: nat)
    requires DataUnits(g, wr).Ok? && n <= |Build(g, wr, start).value|
    ensures var pre := if wr.write then 2 else 1;
      Read(Build(g, wr, start).value[..n], host) == Some(Meant(wr, start)) <==>
      n >= pre && Data(DataUnits(g, wr).value[..n - pre], host) == Gather(wr.sges)
  {
    hide DataUnits, Data, Gather;
    var image, pre := Build(g, wr, start).value, if wr.write then 2 else 1;
    if n >= pre {
      assert image[..n][pre..] == DataUnits(g, wr).value[..n - pre];
    }
  }

  /** The first `n` units of a WQE are the request itself exactly if they are all of it. */
  lemma ReadsPart(g: Geometry, wr: Wr, start: nat, host: Host, n: nat)
    requires DataUnits(g, wr).Ok? && Backed(host, wr.sges) && n <= Size(wr) && n < 0x40
    ensures |Build(g, wr, start).value| == Size(wr)
    ensures Read(Build(g, wr, start).value[..n], host) == Some(Meant(wr, start)) <==> n == Size(wr)
  {
    hide *;
    ImageSize(g, wr, start);
    var pre := if wr.write then 2 else 1;
    ReadsFirst(g, wr, start, host, n);
    if n >= pre {
      DataReach(g, wr, host, n - pre);
    }
  }

  /** The device reads off the ring exactly what was asked for if, and only if, the number of units fits the 6 bits it
      has in the control unit. */
  lemma DeviceReads(g: Geometry, w: Wqe, wr: Wr, ring: seq<Unit>, host: Host)
    requires Encodes(g, w, wr) && 0 < |ring| && Intact(ring, w.start, w.image) && Backed(host, wr.sges)
    ensures ReadAt(ring, w.start, host) == Some(Meant(wr, w.start)) <==> Size(wr) < 0x40
  {
    ImageSize(g, wr, w.start);
    var n := |w.image| % 0x40;
    ReadsPart(g, wr, w.start, host, n);
    hide Size, Read, DataUnits, At, Meant;
    assert At(ring, 4 * w.start) == w.image[0] && w.image[0].ds == n;
    assert Fetched(ring, w.start, n) == w.image[..n];
  }

  /** Whatever host memory holds, the device that looks at block `start` finds request `wr` there, if its units can be
      counted. */
  ghost predicate ReadsBack(ring: seq<Unit>, start: nat, wr: Wr)
    requires 0 < |ring|
  {
    forall host: Host :: Backed(host, wr.sges) ==>
      (ReadAt(ring, start, host) == Some(Meant(wr, start)) <==> Size(wr) < 0x40)
  }

  /** A request that the queue takes, if there is room. */
  ghost predicate Takes(g: Geometry, wr: Wr) {
    |wr.sges| <= g.maxGs && DataUnits(g, wr).Ok?
  }

  /** The units of every request can be counted exactly on the queues that take no more than 972 inline bytes. */
  lemma AllCounted(a: Attr, g: Geometry)
    requires Sized(a, g)
    ensures (forall wr :: Takes(g, wr) ==> Size(wr) < 0x40) <==> g.maxGs == 0 || g.maxInline <= 972
  {
    if g.maxGs == 0 || g.maxInline <= 972 {
      forall wr | Takes(g, wr)
        ensures Size(wr) < 0x40
      {
        Counted(a, g, wr);
      }
    } else {
      var wr := Wr(0, true, true, false, 0, 0, [Sge(0, 0, seq(973, _ => 0))]);
      OneEntry(g, wr);
      assert Takes(g, wr);
    }
  }

  lemma Counted(a: Attr, g: Geometry, wr: Wr)
    requires Sized(a, g) && Takes(g, wr) && (g.maxGs == 0 || g.maxInline <= 972)
    ensures Size(wr) < 0x40
  {
    assert wr.inl ==> Total(wr.sges) <= g.maxInline;
    assert g.maxGs == 0 ==> wr.sges == [];
    hide Overhead, PowerOfTwo, Pointers, Copied;
  }

  lemma OneEntry(g: Geometry, wr: Wr)
    requires |wr.sges| == 1 && wr.inl && |wr.sges[0].bytes| == 973 <= g.maxInline
    ensures DataUnits(g, wr).Ok? && Total(wr.sges) == 973
  {
    assert wr.sges[1..] == [];
    assert Copied(wr.sges, 0, g.maxInline) == [wr.sges[0]] + Copied([], 973, g.maxInline) == wr.sges;
  }

  lemma EncodedReadsBack(g: Geometry, w: Wqe, wr: Wr, ring: seq<Unit>)
    requires Encodes(g, w, wr) && 0 < |ring| && Intact(ring, w.start, w.image)
    ensures ReadsBack(ring, w.start, wr)
  {
    hide Encodes, Intact, Backed, ReadAt, Meant, Size;
    forall host: Host | Backed(host, wr.sges)
      ensures ReadAt(ring, w.start, host) == Some(Meant(wr, w.start)) <==> Size(wr) < 0x40
    {
      DeviceReads(g, w, wr, ring, host);
    }
  }

  /** The outstanding requests can all be read off the ring. */
  lemma OutstandingReadBack(q: Sq, bbs: nat, g: Geometry, reqs: seq<Wr>)
    requires q.Inv(bbs) && EncodesAll(g, q.sent, reqs)
    ensures forall k: nat :: q.tail <= k < |reqs| ==> ReadsBack(q.ring, q.sent[k].start, reqs[k])
  {
    forall k: nat | q.tail <= k < |reqs|
      ensures ReadsBack(q.ring, q.sent[k].start, reqs[k])
    {
      EncodedReadsBack(g, q.sent[k], reqs[k], q.ring);
    }
  }

  lemma PutAt(b: seq<nat>, b': seq<nat>, lo: nat, x: nat, v: nat)
    requires 0 < |b| && lo <= x < lo + |b| && b' == b[x % |b| := v]
    ensures Put<nat>(b, b', lo, x, v)
  {
    UpdateAt(b, x, v, lo);
  }

  /** What can happen to a send queue: software posts, or the device completes the WQE with
      the given ordinal and reports it if it was signalled. */
  datatype Event = Post(wrs: seq<Wr>) | Done(c: nat)

  /** The queue as its user sees it: the requests taken, and how many of them are known to be complete. */
  datatype View = View(reqs: seq<Wr>, tail: nat)

  /** A completion as reported: the ordinal of its request and its id. */
  datatype Report = Report(ordinal: nat, wrId: nat)

  function After(g: Geometry, v: View, ev: Event): View {
    match ev
    case Post(wrs) => v.(reqs := v.reqs + wrs[..Accepted(g, |v.reqs| - v.tail, wrs)])
    case Done(c) => if v.tail <= c < |v.reqs| && v.reqs[c].signaled then v.(tail := c + 1) else v
  }

  function Reported(v: View, ev: Event): seq<Report> {
    if ev.Done? && v.tail <= ev.c < |v.reqs| && v.reqs[ev.c].signaled then [Report(ev.c, v.reqs[ev.c].wrId)] else []
  }

  function AfterAll(g: Geometry, v: View, script: seq<Event>): View {
    if script == [] then v else After(g, AfterAll(g, v, script[..|script| - 1]), script[|script| - 1])
  }

  function ReportedAll(g: Geometry, v: View, script: seq<Event>): seq<Report> {
    if script == [] then [] else
      ReportedAll(g, v, script[..|script| - 1]) + Reported(AfterAll(g, v, script[..|script| - 1]), script[|script| - 1])
  }

  lemma NextEvent(g: Geometry, v: View, script: seq<Event>, i: nat)
    requires i < |script|
    ensures AfterAll(g, v, script[..i + 1]) == After(g, AfterAll(g, v, script[..i]), script[i])
    ensures ReportedAll(g, v, script[..i + 1])
      == ReportedAll(g, v, script[..i]) + Reported(AfterAll(g, v, script[..i]), script[i])
  {
    assert script[..i + 1][..i] == script[..i];
  }

  /** The WQEs are the requests, in order. */
  ghost predicate EncodesAll(g: Geometry, sent: seq<Wqe>, reqs: seq<Wr>) {
    |sent| == |reqs| && forall k :: 0 <= k < |sent| ==> Encodes(g, sent[k], reqs[k])
  }

  /** One event is one event of the view. */
  method Step(q: SendQueue, ev: Event, ghost v: View) returns (got: seq<Report>)
    requires q.Valid() && q.g.wqeCnt <= 0x1_0000 && EncodesAll(q.g, q.sent, v.reqs) && q.tail == v.tail
    modifies q, q.ring, q.wrid, q.wqeHead
    ensures q.Valid() && EncodesAll(q.g, q.sent, After(q.g, v, ev).reqs) && q.tail == After(q.g, v, ev).tail
    ensures got == Reported(v, ev)
  {
    hide Sq.Inv, Sized, Build, Accepted;
    got := [];
    match ev
    case Post(wrs) =>
      var _, _ := q.PostSend(wrs);
    case Done(c) =>
      if q.tail <= c < |q.sent| {
        assert Encodes(q.g, q.sent[c], v.reqs[c]);
        if q.sent[c].signaled {
          NamedInRing(q, c);
          var id := q.Complete(q.sent[c].start % 0x1_0000, c);
          got := [Report(c, id)];
        }
      }
  }

  /** Every run of posts and in-order completions is a run of the view. At its end, as after each of its steps, every
      request not known to be complete lies unharmed in the ring, encoded for its place; and each completion reported is
      that of its own request. */
  method Run(attr: Attr, geo: Geometry, script: seq<Event>) returns (q: SendQueue, got: seq<Report>)
    requires Sized(attr, geo) && geo.wqeCnt <= 0x1_0000
    ensures q.Valid() && EncodesAll(geo, q.sent, AfterAll(geo, View([], 0), script).reqs)
    ensures q.tail == AfterAll(geo, View([], 0), script).tail && got == ReportedAll(geo, View([], 0), script)
    ensures forall k: nat :: q.tail <= k < |q.sent| ==> Intact(q.ring[..], q.sent[k].start, q.sent[k].image)
    ensures forall k: nat :: q.tail <= k < |q.sent| ==>
      ReadsBack(q.ring[..], q.sent[k].start, AfterAll(geo, View([], 0), script).reqs[k])
  {
    q := new SendQueue(attr, geo);
    got := [];
    for i := 0 to |script|
      invariant fresh(q) && fresh(q.ring) && fresh(q.wrid) && fresh(q.wqeHead) && q.Valid() && q.g == geo
      invariant EncodesAll(geo, q.sent, AfterAll(geo, View([], 0), script[..i]).reqs)
      invariant q.tail == AfterAll(geo, View([], 0), script[..i]).tail
      invariant got == ReportedAll(geo, View([], 0), script[..i])
    {
      hide Sq.Inv, Sized, Encodes, AfterAll, ReportedAll, After, Reported, EncodesAll;
      var g := Step(q, script[i], AfterAll(geo, View([], 0), script[..i]));
      NextEvent(geo, View([], 0), script, i);
      got := got + g;
    }
    assert script[..|script|] == script;
    OutstandingReadBack(q.Q(), geo.wqeSize / WQE_BB, geo, AfterAll(geo, View([], 0), script).reqs);
  }

  /** Reports of ordinals from `lo` to below `hi`, each at most once and in order. */
  ghost predicate Ascending(got: seq<Report>, lo: nat, hi: nat) {
    && lo <= hi && (forall i :: 0 <= i < |got| ==> lo <= got[i].ordinal < hi)
    && forall i, j :: 0 <= i < j < |got| ==> got[i].ordinal < got[j].ordinal
  }

  lemma AscendingMore(got: seq<Report>, more: seq<Report>, lo: nat, mid: nat, hi: nat)
    requires Ascending(got, lo, mid) && mid <= hi && |more| <= 1 && (more != [] ==> mid <= more[0].ordinal < hi)
    ensures Ascending(got + more, lo, hi)
  {
  }

  /** Completions are reported at most once and in order. */
  lemma {:induction false} ReportedInOrder(g: Geometry, v: View, script: seq<Event>)
    ensures Ascending(ReportedAll(g, v, script), v.tail, AfterAll(g, v, script).tail)
  {
    if script != [] {
      hide Accepted, Ascending;
      var u, e := AfterAll(g, v, script[..|script| - 1]), script[|script| - 1];
      ReportedInOrder(g, v, script[..|script| - 1]);
      AscendingMore(ReportedAll(g, v, script[..|script| - 1]), Reported(u, e), v.tail, u.tail, After(g, u, e).tail);
    }
  }
}
