/** Completion-queue entries (CQEs) and the meaning of a compressed session.

    A slot of the queue is 64 bytes. Read as a CQE it has the fields of `Cqe`; the same
    bytes can be read as an array of eight mini-CQEs. `Env.view` is that second reading:
    it is an arbitrary function, so nothing is assumed about how a write to a CQE field
    disturbs the mini-CQEs that share its bytes.
 */
module Cqes {

  const MINI_ARR_SIZE := 8

  // Opcodes (high nibble of op_own) and the format value of a compressed title.
  const REQ := 0
  const RESIZE_CQ := 5
  const INVALID := 15
  const COMPRESSED := 3

  /** The op_own byte: opcode (bits 7-4), format (3-2), solicited (1), owner (0). */
  datatype OpOwn = OpOwn(opcode: nat, format: nat, se: bool, owner: bool)

  datatype Cqe = Cqe(op: OpOwn, byteCnt: nat, wqeCounter: nat, sop: nat, qpn: nat, srqnUidx: nat, rxHash: nat,
                     rest: seq<nat>)

  /** A mini-CQE: a 32-bit union (rx hash, or WQE counter and opcode) and a byte count. */
  datatype Mini = Mini(info: nat, byteCnt: nat)

  predicate IsRequestor(opcode: nat) { opcode == REQ || opcode == 13 }

  predicate IsResponder(opcode: nat) { opcode in {1, 2, 3, 4, 14, 6} }

  /** What the queue cannot see by itself: the overlay of mini-CQEs on a slot, and which
      resource numbers belong to multi-packet receive queues. */
  datatype Env = Env(view: (Cqe, nat) -> Mini, mpRwq: nat -> bool, cqeVersion: bool) {

    /** The slot `c` read as a mini-CQE array. */
    function Minis(c: Cqe): (r: seq<Mini>)
      ensures |r| == MINI_ARR_SIZE
    {
      seq(MINI_ARR_SIZE, i requires 0 <= i => view(c, i))
    }

    predicate MpRq(title: Cqe) {
      mpRwq(if cqeVersion then title.srqnUidx % 0x100_0000 else title.qpn % 0x100_0000)
    }
  }

  /** A completion without the bits that only steer the queue. */
  function Strip(c: Cqe): Cqe {
    c.(op := c.op.(owner := false, format := if c.op.format == COMPRESSED then 0 else c.op.format))
  }

  /** Of entries that are not compressed only the owner bit is left out. */
  lemma StripTells(c: Cqe, d: Cqe)
    requires c.op.format != COMPRESSED && d.op.format != COMPRESSED
    ensures Strip(c) == Strip(d) <==> c.(op := c.op.(owner := true)) == d.(op := d.op.(owner := true))
  {
  }

  /** Stride count or 1: how far one receive completion moves the WQE counter. */
  function Advance(mp: bool, m: Mini): nat {
    if mp then (m.byteCnt / 0x1_0000) % 0x4000 else 1
  }

  /** The 16-bit WQE counter of the `i`-th receive completion of a session. */
  function WqeAt(mp: bool, first: nat, ms: seq<Mini>, i: nat): nat
    requires i <= |ms|
  {
    if i == 0 then first
    else (WqeAt(mp, first, ms, i - 1) + Advance(mp, ms[i - 1])) % 0x1_0000
  }

  /** `c` with the fields that a mini-CQE carries put in. */
  function FromMini(c: Cqe, req: bool, m: Mini, wqeCnt: nat): Cqe {
    if req then c.(byteCnt := m.byteCnt, wqeCounter := m.info / 0x1_0000, sop := m.info / 0x100 % 0x100)
    else c.(byteCnt := m.byteCnt, rxHash := m.info, wqeCounter := wqeCnt)
  }

  /** The meaning of a session: its `i`-th completion. */
  function Expand(mp: bool, title: Cqe, ms: seq<Mini>, i: nat): Cqe
    requires i < |ms|
  {
    Strip(FromMini(title, IsRequestor(title.op.opcode), ms[i], WqeAt(mp, title.wqeCounter, ms, i)))
  }

  function Expansion(mp: bool, title: Cqe, ms: seq<Mini>): (r: seq<Cqe>)
    ensures |r| == |ms|
  {
    seq(|ms|, i requires 0 <= i < |ms| => Expand(mp, title, ms, i))
  }

  /** The fields of a title that no mini-CQE overwrites. Expansion reads nothing else
      of the title, which is why a title already overwritten by its first expanded
      entry can still serve the later ones. */
  function Core(c: Cqe, req: bool): Cqe {
    c.(op := c.op.(owner := false, format := 0), byteCnt := 0, wqeCounter := 0,
       sop := if req then 0 else c.sop, rxHash := if req then c.rxHash else 0)
  }

  // ---------------------------------------------------------------- what the device packs into a session

  /** One completion as the device knows it, before it is packed: the WQE counter and opcode of a send, the hash, the
      strides and the bytes of a receive. */
  datatype Item = Item(counter: nat, opcode: nat, hash: nat, strides: nat, bytes: nat)

  /** The numbers that share a word fit their parts of it: 8 bits of opcode below the counter, 16 bits of bytes below 14
      of strides. */
  predicate Packable(it: Item, req: bool, mp: bool) {
    if req then it.opcode < 0x100 else mp ==> it.strides < 0x4000 && it.bytes < 0x1_0000
  }

  /** The byte count field: with the strides above the bytes for a multi-packet receive queue. */
  function Count(it: Item, req: bool, mp: bool): nat {
    if !req && mp then it.strides * 0x1_0000 + it.bytes else it.bytes
  }

  function Packed(it: Item, req: bool, mp: bool): Mini {
    Mini(if req then it.counter * 0x1_0000 + it.opcode * 0x100 else it.hash, Count(it, req, mp))
  }

  function PackedAll(items: seq<Item>, req: bool, mp: bool): (r: seq<Mini>)
    ensures |r| == |items|
  {
    seq(|items|, i requires 0 <= i < |items| => Packed(items[i], req, mp))
  }

  /** The strides that the first `i` receives take. */
  function Strides(items: seq<Item>, i: nat): nat
    requires i <= |items|
  {
    if i == 0 then 0 else Strides(items, i - 1) + items[i - 1].strides
  }

  /** The completion of item `i` of a session: for a send its own counter and opcode; for a receive its hash, and the
      WQE after the ones before it or, on a multi-packet queue, the stride after the ones before it. */
  function Original(title: Cqe, items: seq<Item>, req: bool, mp: bool, i: nat): Cqe
    requires i < |items|
  {
    var c := title.(op := title.op.(owner := false, format := 0), byteCnt := Count(items[i], req, mp));
    if req then c.(wqeCounter := items[i].counter, sop := items[i].opcode)
    else c.(rxHash := items[i].hash,
            wqeCounter := (title.wqeCounter + if mp then Strides(items, i) else i) % 0x1_0000)
  }

  function Originals(title: Cqe, items: seq<Item>, req: bool, mp: bool): (r: seq<Cqe>)
    ensures |r| == |items|
  {
    seq(|items|, i requires 0 <= i < |items| => Original(title, items, req, mp, i))
  }

  /** The items fit the fields that a session under `title` packs them into. */
  predicate AllPackable(items: seq<Item>, req: bool, mp: bool) {
    forall k :: 0 <= k < |items| ==> Packable(items[k], req, mp)
  }

  lemma {:induction false} CounterAt(mp: bool, first: nat, items: seq<Item>, i: nat)
    requires i <= |items| && first < 0x1_0000 && AllPackable(items, false, mp)
    ensures WqeAt(mp, first, PackedAll(items, false, mp), i) == (first + if mp then Strides(items, i) else i) % 0x1_0000
  {
    if i > 0 {
      CounterAt(mp, first, items, i - 1);
      CountStrides(items[i - 1], mp);
      hide Packed, Packable, Advance;
      Wraps(first + (if mp then Strides(items, i - 1) else i - 1), if mp then items[i - 1].strides else 1);
    }
  }

  lemma Wraps(was: nat, step: nat)
    ensures (was % 0x1_0000 + step) % 0x1_0000 == (was + step) % 0x1_0000
  {
  }

  lemma CountStrides(it: Item, mp: bool)
    requires Packable(it, false, mp)
    ensures Advance(mp, Packed(it, false, mp)) == if mp then it.strides else 1
  {
  }

  /** Expanding what was packed gives every completion back. */
  lemma ExpandsPacked(mp: bool, title: Cqe, items: seq<Item>)
    requires title.op.format == COMPRESSED && title.wqeCounter < 0x1_0000
    requires AllPackable(items, IsRequestor(title.op.opcode), mp)
    ensures var req := IsRequestor(title.op.opcode);
      Expansion(mp, title, PackedAll(items, req, mp)) == Originals(title, items, req, mp)
  {
    forall i | 0 <= i < |items|
      ensures Expand(mp, title, PackedAll(items, IsRequestor(title.op.opcode), mp), i) ==
              Original(title, items, IsRequestor(title.op.opcode), mp, i)
    {
      ExpandsOne(mp, title, items, i);
    }
  }

  lemma ExpandsOne(mp: bool, title: Cqe, items: seq<Item>, i: nat)
    requires title.op.format == COMPRESSED && title.wqeCounter < 0x1_0000 && i < |items|
    requires AllPackable(items, IsRequestor(title.op.opcode), mp)
    ensures var req := IsRequestor(title.op.opcode);
      Expand(mp, title, PackedAll(items, req, mp), i) == Original(title, items, req, mp, i)
  {
    if IsRequestor(title.op.opcode) {
      Unpacks(items[i]);
    } else {
      CounterAt(mp, title.wqeCounter, items, i);
    }
    hide WqeAt, IsRequestor, Count;
  }

  lemma Unpacks(it: Item)
    requires it.opcode < 0x100
    ensures var info := Packed(it, true, false).info; info / 0x1_0000 == it.counter && info / 0x100 % 0x100 == it.opcode
  {
  }

  // ---------------------------------------------------------------- whose completion it is

  /** `c` as the device tags it for user index `number` or, in the older format, for queue `number` with shared receive
      queue `srq` (0 for none); `high` are bits of other fields in the same words. */
  function Tagged(c: Cqe, version: bool, number: nat, srq: nat, high: nat): Cqe {
    if version then c.(srqnUidx := high * 0x100_0000 + number)
    else c.(qpn := high * 0x100_0000 + number, srqnUidx := high * 0x100_0000 + srq)
  }

  lemma TaggedMpRq(e: Env, c: Cqe, number: nat, srq: nat, high: nat)
    requires number < 0x100_0000
    ensures e.MpRq(Tagged(c, e.cqeVersion, number, srq, high)) == e.mpRwq(number)
  {
  }

  /** No opcode is both a requestor's and a responder's, and invalid entries and resize markers are neither. */
  lemma OpcodeKinds(opcode: nat)
    ensures !(IsRequestor(opcode) && IsResponder(opcode))
    ensures opcode == INVALID || opcode == RESIZE_CQ ==> !IsRequestor(opcode) && !IsResponder(opcode)
    ensures opcode < 16 && opcode !in {INVALID, RESIZE_CQ} ==>
      (IsRequestor(opcode) || IsResponder(opcode) <==> opcode < 7 || opcode >= 13)
  {
  }
}
