/** Multi-packet WQEs of the raw-Ethernet burst interface: what they look like in memory
    and what the device makes of them.

    Memory is a ring of bytes. A byte of a control structure is kept as `Part`: byte `k` of
    a 16-byte unit (or of a 4-byte length word), so overlapping writes do destroy each other.
 */
module Burst {
  import opened Common
  import opened Ring
  import opened SendQueues

  datatype Flags = Flags(signaled: bool, solicited: bool, fence: bool, csum: bool)

  /** A frame to send: inline from one buffer, or gathered from a list. */
  datatype Msg = Msg(inl: bool, flags: Flags, sges: seq<Sge>)

  datatype Struct =
    | Control(mpw: bool, idx: nat, ds: nat, flags: Flags)
    | Eth(mss: nat, csum: bool, hdrSize: nat, hdr: seq<byte>)
    | EthHdr(hdr: seq<byte>)
    | Pointer(len: nat, lkey: nat, addr: nat)
    | InlineLen(total: nat)

  datatype Cell = Byte(b: byte) | Part(u: Struct, k: nat)

  const INLINE_HDR := 18

  function Cells(u: Struct, n: nat): (r: seq<Cell>)
    ensures |r| == n && forall i :: 0 <= i < n ==> r[i] == Part(u, i)
  {
    seq(n, i requires 0 <= i => Part(u, i))
  }

  function Bytes(s: seq<byte>): (r: seq<Cell>)
    ensures |r| == |s| && forall i :: 0 <= i < |s| ==> r[i] == Byte(s[i])
  {
    seq(|s|, i requires 0 <= i < |s| => Byte(s[i]))
  }

  /** The pointer units of a gather list: the first entry, and the others unless empty. */
  function Kept(sges: seq<Sge>): (r: seq<Sge>)
    requires sges != []
    ensures |r| <= |sges| && r != []
  {
    [sges[0]] + NonEmpty(sges[1..])
  }

  function NonEmpty(sges: seq<Sge>): (r: seq<Sge>)
    ensures |r| <= |sges|
  {
    if sges == [] then [] else (if sges[0].bytes == [] then [] else [sges[0]]) + NonEmpty(sges[1..])
  }

  function PointerTo(e: Sge): Struct { Pointer(|e.bytes|, e.lkey, e.addr) }

  function PtrCells(sges: seq<Sge>): (r: seq<Cell>)
    ensures |r| == 16 * |sges|
  {
    if sges == [] then [] else Cells(PointerTo(sges[0]), 16) + PtrCells(sges[1..])
  }

  /** A WQE: several frames of one kind, or one frame with its header inline. */
  datatype Rec = Agg(start: nat, inl: bool, flags: Flags, len: nat, msgs: seq<Msg>) | Single(start: nat, msg: Msg)

  function Msgs(r: Rec): seq<Msg> { if r.Agg? then r.msgs else [r.msg] }

  function AllKept(msgs: seq<Msg>): (r: seq<Sge>)
    requires forall i :: 0 <= i < |msgs| ==> msgs[i].sges != []
  {
    if msgs == [] then [] else Kept(msgs[0].sges) + AllKept(msgs[1..])
  }

  function Stream(msgs: seq<Msg>): seq<byte> {
    if msgs == [] then [] else Gather(msgs[0].sges) + Stream(msgs[1..])
  }

  function Payloads(msgs: seq<Msg>): (r: seq<seq<byte>>)
    ensures |r| == |msgs|
  {
    seq(|msgs|, i requires 0 <= i < |msgs| => Gather(msgs[i].sges))
  }

  /** A frame as the device sends it: its bytes and its flags. */
  datatype Frame = Frame(bytes: seq<byte>, flags: Flags)

  function Frames(msgs: seq<Msg>): (r: seq<Frame>)
    ensures |r| == |msgs|
  {
    seq(|msgs|, i requires 0 <= i < |msgs| => Frame(Gather(msgs[i].sges), msgs[i].flags))
  }

  /** Payloads of one WQE with flags `f`: only the last of them is reported. */
  function Framed(payloads: seq<seq<byte>>, f: Flags): seq<Frame> {
    seq(|payloads|, i requires 0 <= i < |payloads| =>
      Frame(payloads[i], if i == |payloads| - 1 then f else f.(signaled := false)))
  }

  predicate SameKind(f: Flags, g: Flags) { f.(signaled := false) == g.(signaled := false) }

  /** What every WQE satisfies: an aggregated one holds frames of one length and one set of
      flags, of which only the last may be signalled. */
  predicate WellFormed(r: Rec) {
    match r
    case Agg(_, inl, flags, len, msgs) =>
      && msgs != [] && 0 < len
      && (forall i :: 0 <= i < |msgs| ==>
            msgs[i].inl == inl && msgs[i].sges != [] && |Gather(msgs[i].sges)| == len && SameKind(msgs[i].flags, flags))
      && (forall i :: 0 <= i < |msgs| - 1 ==> !msgs[i].flags.signaled)
    case Single(_, m) => !m.inl && m.sges != [] && |m.sges[0].bytes| > INLINE_HDR
  }

  function Times(a: nat, b: nat): nat { a * b }

  /** The size of a WQE in 16-byte units. */
  function Units(r: Rec): (u: nat)
    requires WellFormed(r)
    ensures 2 <= u
  {
    match r
    case Agg(_, inl, _, len, msgs) => if inl then 2 + (Times(len, |msgs|) + 4 + 15) / 16 else 2 + |AllKept(msgs)|
    case Single(_, m) => 3 + |Kept(m.sges)|
  }

  function RecBlocks(r: Rec): nat
    requires WellFormed(r)
  {
    (Units(r) * 16 + 63) / 64
  }

  function LastFlags(r: Rec): Flags
    requires WellFormed(r)
  {
    var ms := Msgs(r); ms[|ms| - 1].flags
  }

  function Head(r: Rec): (u: Struct)
    requires WellFormed(r)
    ensures u.Control?
  {
    Control(r.Agg?, r.start % 0x1_0000, Units(r) % 0x40, LastFlags(r))
  }

  /** The first gather entry without the bytes that went into the inline header. */
  function Shortened(sges: seq<Sge>): (r: seq<Sge>)
    requires sges != [] && |sges[0].bytes| > INLINE_HDR
    ensures r != []
  {
    [sges[0].(addr := sges[0].addr + INLINE_HDR, bytes := sges[0].bytes[INLINE_HDR..])] + sges[1..]
  }

  /** The Ethernet unit. */
  function EthCells(r: Rec): (c: seq<Cell>)
    requires WellFormed(r)
    ensures |c| == 16
  {
    match r
    case Agg(_, _, flags, len, _) => Cells(Eth(len, flags.csum, 0, []), 16)
    case Single(_, m) => Cells(Eth(0, m.flags.csum, INLINE_HDR, m.sges[0].bytes[..2]), 16)
  }

  /** What follows the Ethernet unit. */
  function DataCells(r: Rec): seq<Cell>
    requires WellFormed(r)
  {
    match r
    case Agg(_, inl, _, len, msgs) =>
      if inl then Cells(InlineLen(Times(len, |msgs|)), 4) + Bytes(Stream(msgs)) else PtrCells(AllKept(msgs))
    case Single(_, m) =>
      Cells(EthHdr(m.sges[0].bytes[2..INLINE_HDR]), 16) + PtrCells(Kept(Shortened(m.sges)))
  }

  function Image(r: Rec): seq<Cell>
    requires WellFormed(r)
  {
    Cells(Head(r), 16) + (EthCells(r) + DataCells(r))
  }

  // ----- what the device makes of a WQE -----

  /** `s` cut into frames of `n` bytes. */
  function Chop(s: seq<byte>, n: nat): seq<seq<byte>> {
    if s == [] || n == 0 then [] else if |s| <= n then [s] else [s[..n]] + Chop(s[n..], n)
  }

  /** The bytes of host memory behind `n` pointer units from offset `off` on. */
  function PtrStream(c: seq<Cell>, off: nat, n: nat, host: Host): seq<byte>
    decreases n
  {
    if n == 0 || off >= |c| || !c[off].Part? || !c[off].u.Pointer? then []
    else Load(host, c[off].u.lkey, c[off].u.addr, c[off].u.len) + PtrStream(c, off + 16, n - 1, host)
  }

  function Raw(c: seq<Cell>, off: nat, n: nat): seq<byte>
    decreases n
  {
    if n == 0 || off >= |c| || !c[off].Byte? then [] else [c[off].b] + Raw(c, off + 1, n - 1)
  }

  /** The payloads in a WQE that starts at `c[0]`. A multi-packet WQE is one stream of bytes,
      cut at the segment size in its Ethernet unit. */
  function DecodeBytes(c: seq<Cell>, host: Host): seq<seq<byte>> {
    if !(|c| > 32 && c[0].Part? && c[0].u.Control? && c[16].Part? && c[16].u.Eth? && c[32].Part?) then []
    else
      var (ctrl, eth) := (c[0].u, c[16].u);
      if ctrl.mpw && c[32].u.InlineLen? then Chop(Raw(c, 36, c[32].u.total), eth.mss)
      else if ctrl.mpw then Chop(PtrStream(c, 32, if ctrl.ds < 2 then 0 else ctrl.ds - 2, host), eth.mss)
      else if c[32].u.EthHdr? then
        [eth.hdr + c[32].u.hdr + PtrStream(c, 48, if ctrl.ds < 3 then 0 else ctrl.ds - 3, host)]
      else []
  }

  /** The frames of a WQE. The checksum flag is the one in the Ethernet unit. */
  function Decode(c: seq<Cell>, host: Host): seq<Frame> {
    if !(|c| > 16 && c[0].Part? && c[0].u.Control? && c[16].Part? && c[16].u.Eth?) then []
    else Framed(DecodeBytes(c, host), c[0].u.flags.(csum := c[16].u.csum))
  }

  lemma {:induction false} StreamLength(msgs: seq<Msg>, len: nat)
    requires forall i :: 0 <= i < |msgs| ==> |Gather(msgs[i].sges)| == len
    ensures |Stream(msgs)| == Times(len, |msgs|)
  {
    if msgs != [] {
      hide Gather;
      StreamLength(msgs[1..], len);
      MulSucc(|msgs| - 1, len);
    }
  }

  lemma {:induction false} ChopStream(msgs: seq<Msg>, len: nat)
    requires 0 < len && forall i :: 0 <= i < |msgs| ==> |Gather(msgs[i].sges)| == len
    ensures Chop(Stream(msgs), len) == Payloads(msgs)
  {
    hide Gather;
    if msgs == [] {
    } else if |msgs| == 1 {
      assert Stream(msgs) == Gather(msgs[0].sges) + Stream([]) == Gather(msgs[0].sges);
      assert Payloads(msgs) == [Gather(msgs[0].sges)];
    } else {
      var g, more := Gather(msgs[0].sges), msgs[1..];
      ChopStream(more, len);
      assert Stream(more) == Gather(more[0].sges) + Stream(more[1..]);
      ChopOne(g, Stream(more), len);
      assert Payloads(msgs) == [g] + Payloads(more);
    }
  }

  lemma ChopOne(g: seq<byte>, rest: seq<byte>, len: nat)
    requires 0 < len == |g| && rest != []
    ensures Chop(g + rest, len) == [g] + Chop(rest, len)
  {
    assert (g + rest)[..len] == g && (g + rest)[len..] == rest;
  }

  lemma {:induction false} PtrStreamOf(c: seq<Cell>, off: nat, sges: seq<Sge>, host: Host)
    requires off + 16 * |sges| <= |c| && c[off..off + 16 * |sges|] == PtrCells(sges) && Backed(host, sges)
    ensures PtrStream(c, off, |sges|, host) == Gather(sges)
    decreases |sges|
  {
    if sges != [] {
      var k := |PtrCells(sges[1..])|;
      assert PtrCells(sges)[16..] == PtrCells(sges[1..]);
      assert c[off..off + 16 * |sges|][16..] == c[off + 16..off + 16 + k];
      assert c[off] == c[off..off + 16 * |sges|][0] == Part(PointerTo(sges[0]), 0);
      PtrStreamOf(c, off + 16, sges[1..], host);
    }
  }

  lemma {:induction false} RawOf(c: seq<Cell>, off: nat, s: seq<byte>)
    requires off + |s| <= |c| && c[off..off + |s|] == Bytes(s)
    ensures Raw(c, off, |s|) == s
    decreases |s|
  {
    if s != [] {
      assert Bytes(s)[1..] == Bytes(s[1..]);
      assert c[off..off + |s|][1..] == c[off + 1..off + 1 + |s[1..]|];
      assert c[off] == c[off..off + |s|][0] == Byte(s[0]);
      RawOf(c, off + 1, s[1..]);
    }
  }

  lemma {:induction false} NonEmptyGather(sges: seq<Sge>)
    ensures Gather(NonEmpty(sges)) == Gather(sges)
  {
    if sges != [] {
      NonEmptyGather(sges[1..]);
      if sges[0].bytes != [] {
        assert NonEmpty(sges)[1..] == NonEmpty(sges[1..]);
      } else {
        assert NonEmpty(sges) == NonEmpty(sges[1..]);
      }
    }
  }

  lemma {:induction false} NonEmptyBacked(sges: seq<Sge>, host: Host)
    requires Backed(host, sges)
    ensures Backed(host, NonEmpty(sges))
  {
    if sges != [] {
      NonEmptyBacked(sges[1..], host);
    }
  }

  /** Host memory holds the frames. */
  ghost predicate AllBacked(host: Host, msgs: seq<Msg>) {
    forall i :: 0 <= i < |msgs| ==> Backed(host, msgs[i].sges)
  }

  lemma {:induction false} AllKeptBacked(msgs: seq<Msg>, host: Host)
    requires AllBacked(host, msgs) && forall i :: 0 <= i < |msgs| ==> msgs[i].sges != []
    ensures Backed(host, AllKept(msgs))
  {
    if msgs != [] {
      NonEmptyBacked(msgs[0].sges[1..], host);
      AllKeptBacked(msgs[1..], host);
    }
  }

  lemma ShortenedBacked(sges: seq<Sge>, host: Host)
    requires Backed(host, sges) && sges != [] && |sges[0].bytes| > INLINE_HDR
    ensures Backed(host, Kept(Shortened(sges)))
  {
    var e := sges[0];
    assert Load(host, e.lkey, e.addr + INLINE_HDR, |e.bytes| - INLINE_HDR)
      == Load(host, e.lkey, e.addr, |e.bytes|)[INLINE_HDR..];
    assert Shortened(sges)[1..] == sges[1..];
    NonEmptyBacked(sges[1..], host);
  }

  lemma KeptGather(sges: seq<Sge>)
    requires sges != []
    ensures Gather(Kept(sges)) == Gather(sges)
  {
    NonEmptyGather(sges[1..]);
    assert Kept(sges)[1..] == NonEmpty(sges[1..]);
  }

  lemma {:induction false} AllKeptGather(msgs: seq<Msg>)
    requires forall i :: 0 <= i < |msgs| ==> msgs[i].sges != []
    ensures Gather(AllKept(msgs)) == Stream(msgs)
  {
    if msgs != [] {
      AllKeptGather(msgs[1..]);
      KeptGather(msgs[0].sges);
      GatherConcat(Kept(msgs[0].sges), AllKept(msgs[1..]));
    }
  }

  /** The device gets back exactly the frames that a WQE was built from, with their flags. `c` is the memory
      of the WQE, which may have unused bytes at its end. */
  lemma DecodeImage(r: Rec, c: seq<Cell>, host: Host)
    requires WellFormed(r) && Units(r) < 0x40 && Image(r) <= c && AllBacked(host, Msgs(r))
    ensures Decode(c, host) == Frames(Msgs(r))
  {
    DecodePayloads(r, c, host);
    DecodeFlags(r, c, host);
    MsgFlags(r);
    hide *;
    assert Decode(c, host) == Frames(Msgs(r)) by { FramedMsgs(Msgs(r), LastFlags(r)); }
  }

  /** Only the last frame of a WQE is reported, and all have the other flags of the last. */
  lemma MsgFlags(r: Rec)
    requires WellFormed(r)
    ensures forall i :: 0 <= i < |Msgs(r)| ==>
      Msgs(r)[i].flags == if i == |Msgs(r)| - 1 then LastFlags(r) else LastFlags(r).(signaled := false)
  {
    hide Gather;
  }

  lemma FramedMsgs(msgs: seq<Msg>, f: Flags)
    requires forall i :: 0 <= i < |msgs| ==> msgs[i].flags == if i == |msgs| - 1 then f else f.(signaled := false)
    ensures Framed(Payloads(msgs), f) == Frames(msgs)
  {
    hide Gather;
  }

  /** What the control and Ethernet units say of the flags. */
  lemma DecodeFlags(r: Rec, c: seq<Cell>, host: Host)
    requires WellFormed(r) && Image(r) <= c
    ensures Decode(c, host) == Framed(DecodeBytes(c, host), LastFlags(r))
  {
    HeadCells(r, c);
    hide Gather, DecodeBytes, Framed, Units;
  }

  lemma HeadCells(r: Rec, c: seq<Cell>)
    requires WellFormed(r) && Image(r) <= c
    ensures |c| >= 32 && c[0] == Part(Head(r), 0) && c[16] == EthCells(r)[0]
  {
    hide DataCells, Units, WellFormed, EthCells, Head;
    var img := Image(r);
    assert c[..|img|] == img;
    assert c[0] == c[..|img|][0] && c[16] == c[..|img|][16];
  }

  lemma DecodePayloads(r: Rec, c: seq<Cell>, host: Host)
    requires WellFormed(r) && Units(r) < 0x40 && Image(r) <= c && AllBacked(host, Msgs(r))
    ensures DecodeBytes(c, host) == Payloads(Msgs(r))
  {
    match r
    case Agg(_, inl, flags, len, msgs) =>
      ChopStream(msgs, len);
      StreamLength(msgs, len);
      if inl {
        DecodeInline(r, c, host);
      } else {
        DecodePointers(r, c, host);
      }
    case Single(_, m) => DecodeSingle(r, c, host);
  }

  /** Reading the three sections of a WQE out of memory. */
  lemma Sections(h: seq<Cell>, e: seq<Cell>, d: seq<Cell>, c: seq<Cell>)
    requires |h| == |e| == 16 && d != [] && h + (e + d) <= c
    ensures |c| >= 32 + |d| && c[0] == h[0] && c[16] == e[0] && c[32] == d[0] && c[32..32 + |d|] == d
  {
    var img := h + (e + d);
    assert c[..|img|] == img;
    assert c[32..32 + |d|] == c[..|img|][32..] == d;
  }

  lemma DecodeInline(r: Rec, c: seq<Cell>, host: Host)
    requires WellFormed(r) && r.Agg? && r.inl && Image(r) <= c && |Stream(r.msgs)| == Times(r.len, |r.msgs|)
    ensures DecodeBytes(c, host) == Chop(Stream(r.msgs), r.len)
  {
    hide Units, WellFormed, Stream, Chop, Raw, Bytes, Cells;
    var s, d := Stream(r.msgs), DataCells(r);
    Sections(Cells(Head(r), 16), EthCells(r), d, c);
    assert c[36..36 + |s|] == c[32..32 + |d|][4..] == Bytes(s);
    RawOf(c, 36, s);
  }

  lemma DecodePointers(r: Rec, c: seq<Cell>, host: Host)
    requires WellFormed(r) && r.Agg? && !r.inl && Image(r) <= c && Units(r) < 0x40 && AllBacked(host, r.msgs)
    ensures DecodeBytes(c, host) == Chop(Stream(r.msgs), r.len)
  {
    hide Stream, Chop, PtrStream, Gather, AllKept;
    var k := AllKept(r.msgs);
    AllKeptGather(r.msgs);
    AllKeptBacked(r.msgs, host);
    AllKeptFirst(r.msgs);
    hide WellFormed, PtrCells;
    Sections(Cells(Head(r), 16), EthCells(r), PtrCells(k), c);
    PtrStreamOf(c, 32, k, host);
  }

  lemma AllKeptFirst(msgs: seq<Msg>)
    requires msgs != [] && forall i :: 0 <= i < |msgs| ==> msgs[i].sges != []
    ensures var k := AllKept(msgs); k != [] && |PtrCells(k)| >= 16 && PtrCells(k)[0] == Part(PointerTo(k[0]), 0)
  {
    FirstPtrCell(AllKept(msgs));
  }

  lemma FirstPtrCell(k: seq<Sge>)
    requires k != []
    ensures |PtrCells(k)| >= 16 && PtrCells(k)[0] == Part(PointerTo(k[0]), 0)
  {
  }

  lemma DecodeSingle(r: Rec, c: seq<Cell>, host: Host)
    requires WellFormed(r) && r.Single? && Image(r) <= c && Units(r) < 0x40 && Backed(host, r.msg.sges)
    ensures DecodeBytes(c, host) == Payloads([r.msg])
  {
    hide PtrStream, Gather, Kept, NonEmpty, PtrCells, Backed;
    ShortenedBacked(r.msg.sges, host);
    var sges := r.msg.sges;
    var k, d := Kept(Shortened(sges)), DataCells(r);
    KeptShortened(sges);
    SingleBytes(sges);
    Sections(Cells(Head(r), 16), EthCells(r), d, c);
    assert c[48..48 + 16 * |k|] == c[32..32 + |d|][16..] == PtrCells(k);
    PtrStreamOf(c, 48, k, host);
    assert Payloads([r.msg]) == [Gather(sges)];
  }

  lemma KeptShortened(sges: seq<Sge>)
    requires sges != [] && |sges[0].bytes| > INLINE_HDR
    ensures |Kept(Shortened(sges))| == |Kept(sges)|
  {
    assert Shortened(sges)[1..] == sges[1..];
  }

  /** The inline header and the shortened gather list make up the frame. */
  lemma SingleBytes(sges: seq<Sge>)
    requires sges != [] && |sges[0].bytes| > INLINE_HDR
    ensures var b := sges[0].bytes;
            b[..2] + b[2..INLINE_HDR] + Gather(Kept(Shortened(sges))) == Gather(sges)
  {
    hide Gather, Kept;
    var b := sges[0].bytes;
    KeptGather(Shortened(sges));
    assert sges == [sges[0]] + sges[1..];
    GatherCons(sges[0], sges[1..]);
    GatherCons(Shortened(sges)[0], sges[1..]);
    assert b == b[..2] + b[2..INLINE_HDR] + b[INLINE_HDR..];
  }

  lemma GatherCons(e: Sge, rest: seq<Sge>)
    ensures Gather([e] + rest) == e.bytes + Gather(rest)
  {
    assert ([e] + rest)[1..] == rest;
  }
}
