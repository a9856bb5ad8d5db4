/** The completion ring's invariant, stated over values, and how each step keeps it.

    `hist` is the sequence of all completions the device has produced; the completion at
    position `p` of the ring is `hist[p]`, so the pending completions are `hist[cons..]`.
 */
module CqInvariant {
  import opened Ring
  import opened Cqes

  /** How the device wrote position `p`: an entry of its own, or a member of the
      compressed session that starts at `start`. */
  datatype Info = Plain | Member(start: nat, title: Cqe, ms: seq<Mini>)

  /** The session that polling is in the middle of; none if `left` is 0. */
  datatype Lazy = Lazy(left: nat, wqeCnt: nat, req: bool, mpRq: bool, miniIdx: nat, minis: seq<Mini>, next: Cqe)

  /** `title` points into the ring or at the saved title of the lazy path. */
  datatype TitlePtr = InSlot(slot: nat) | Saved

  predicate SwOwned(b: seq<Cqe>, p: nat)
    requires |b| > 0
  {
    At(b, p).op.opcode != INVALID && At(b, p).op.owner == Lap(p, |b|)
  }

  ghost predicate PlainAt(b: seq<Cqe>, p: nat, h: Cqe)
    requires |b| > 0
  {
    SwOwned(b, p) && At(b, p).op.format != COMPRESSED && Strip(At(b, p)) == h
  }

  predicate HoldsChunk(a: seq<Mini>, ms: seq<Mini>, k: nat)
    requires |a| == MINI_ARR_SIZE
  {
    forall i :: 0 <= i < MINI_ARR_SIZE && 8 * k + i < |ms| ==> a[i] == ms[8 * k + i]
  }

  /** The offset of the slot that carries chunk `k` of a session. */
  function ChunkSlot(k: nat): nat { if k == 0 then 1 else 8 * k }

  /** The slots of a session that carry mini-CQEs: offset 1, then every eighth. */
  ghost predicate ChunksAt(e: Env, b: seq<Cqe>, start: nat, ms: seq<Mini>, from: nat)
    requires |b| > 0
  {
    forall k: nat :: from <= k && 8 * k < |ms| ==> HoldsChunk(e.Minis(At(b, start + ChunkSlot(k))), ms, k)
  }

  /** A session exactly as the device wrote it. */
  ghost predicate RawSession(e: Env, b: seq<Cqe>, start: nat, title: Cqe, ms: seq<Mini>)
    requires |b| > 0
  {
    && At(b, start) == title && SwOwned(b, start)
    && title.op.format == COMPRESSED && title.byteCnt == |ms|
    && ChunksAt(e, b, start, ms, 0)
  }

  ghost predicate WellFormed(info: seq<Info>, hist: seq<Cqe>, e: Env, n: nat, p: nat)
    requires |info| == |hist| && p < |hist|
  {
    info[p].Member? ==>
      var Member(s, t, ms) := info[p];
      && 2 <= |ms| <= n && |ms| < 0x1_0000 && s <= p < s + |ms| <= |hist|
      && t.op.opcode != INVALID && t.op.format == COMPRESSED
      && (forall q :: s <= q < s + |ms| ==> info[q] == info[p])
      && hist[p] == Expand(e.MpRq(t), t, ms, p - s)
  }

  /** Position `p` is not yet touched by software. */
  ghost predicate Untouched(e: Env, b: seq<Cqe>, info: seq<Info>, hist: seq<Cqe>, p: nat)
    requires |b| > 0 && |info| == |hist| && p < |hist|
  {
    && (info[p].Plain? ==> PlainAt(b, p, hist[p]))
    && (info[p].Member? && p == info[p].start ==> RawSession(e, b, p, info[p].title, info[p].ms))
  }

  /** The queue invariant, apart from the open session: positions from `cons + left` to
      the end of `hist` are as the device wrote them, and no other position of the
      current window looks as if it were owned by software. */
  ghost predicate Inv(e: Env, b: seq<Cqe>, cons: nat, left: nat, hist: seq<Cqe>, info: seq<Info>)
  {
    && 0 < |b| && |info| == |hist| && cons + left <= |hist| <= cons + |b|
    && (forall p :: cons <= p < |hist| ==> WellFormed(info, hist, e, |b|, p))
    && (forall p :: cons + left <= p < |hist| && info[p].Member? ==> cons + left <= info[p].start)
    && (forall p :: cons + left <= p < |hist| ==> Untouched(e, b, info, hist, p))
    && (forall q :: |hist| <= q < cons + |b| ==> !SwOwned(b, q))
  }

  /** The open session: `cons - start` of its entries have been delivered, `lz.minis`
      holds chunk `chunk`, whose slots are marked, and later chunks are still in the ring. */
  ghost predicate Open(e: Env, b: seq<Cqe>, cons: nat, lz: Lazy, chunk: nat, info: seq<Info>)
    requires 0 < |b|
  {
    0 < lz.left ==>
      && cons < |info| && info[cons].Member?
      && var Member(s, t, ms) := info[cons];
      && s <= cons && lz.miniIdx <= MINI_ARR_SIZE && cons - s == 8 * chunk + lz.miniIdx
      && |lz.minis| == MINI_ARR_SIZE && HoldsChunk(lz.minis, ms, chunk)
      && ChunksAt(e, b, s, ms, chunk + 1)
      && (forall p :: cons <= p < s + |ms| && p < s + 8 * (chunk + 1) ==> At(b, p).op.owner == Lap(p, |b|))
      && Tracks(e, lz, t, ms, cons - s)
  }

  /** Expanding what is left of a session in place turns its entries into plain ones. */
  lemma ExpandKeepsInv(e: Env, b: seq<Cqe>, b': seq<Cqe>, cons: nat, left: nat, hist: seq<Cqe>, info: seq<Info>,
                       info': seq<Info>)
    requires Inv(e, b, cons, left, hist, info) && |b'| == |b| && |info'| == |info|
    requires forall p :: 0 <= p < |info| ==> info'[p] == if cons <= p < cons + left then Plain else info[p]
    requires forall p :: cons <= p < cons + left ==> PlainAt(b', p, hist[p])
    requires forall p: nat :: cons + left <= p < cons + |b| ==> At(b', p) == At(b, p)
    ensures Inv(e, b', cons, 0, hist, info')
  {
    MarkKeepsInv(e, b, b', cons, left, hist, info);
    forall p | cons + left <= p < |hist|
      ensures WellFormed(info', hist, e, |b|, p) && Untouched(e, b', info', hist, p)
    {
      assert WellFormed(info, hist, e, |b|, p) && Untouched(e, b', info, hist, p);
    }
  }

  /** An expanded entry as it is stored in the ring. */
  function InPlace(mp: bool, title: Cqe, ms: seq<Mini>, i: nat, lap: bool): Cqe
    requires i < |ms|
  {
    var c := Expand(mp, title, ms, i);
    c.(op := c.op.(owner := lap))
  }

  /** Expansion through a title that has lost its mini-CQE fields already. */
  lemma CoreSuffices(x: Cqe, mp: bool, t: Cqe, ms: seq<Mini>, i: nat, lap: bool)
    requires i < |ms| && t.op.format == COMPRESSED
    requires Core(x, IsRequestor(t.op.opcode)) == Core(t, IsRequestor(t.op.opcode))
    ensures var c := FromMini(x, IsRequestor(t.op.opcode), ms[i], WqeAt(mp, t.wqeCounter, ms, i));
            c.(op := x.op.(format := 0, owner := lap)) == InPlace(mp, t, ms, i, lap)
    ensures Core(InPlace(mp, t, ms, i, lap), IsRequestor(t.op.opcode)) == Core(t, IsRequestor(t.op.opcode))
  {
  }

  lemma InPlaceIsPlain(b: seq<Cqe>, p: nat, mp: bool, t: Cqe, ms: seq<Mini>, i: nat)
    requires 0 < |b| && i < |ms| && t.op.opcode != INVALID && t.op.format == COMPRESSED
    requires At(b, p) == InPlace(mp, t, ms, i, Lap(p, |b|))
    ensures PlainAt(b, p, Expand(mp, t, ms, i))
  {
  }

  /** A slot whose op_own byte has been reset to the bare owner bit. */
  function Marked(c: Cqe, own: bool): Cqe {
    c.(op := OpOwn(REQ, 0, false, own))
  }

  /** The byte holds just the owner bit. */
  lemma MarkedByte(c: Cqe, own: bool)
    ensures var op := Marked(c, own).op; op.opcode == op.format == 0 && !op.se && op.owner == own
  {
  }

  /** The entries written by expanding the rest of session `s` are plain entries. */
  lemma RestIsPlain(e: Env, b: seq<Cqe>, b': seq<Cqe>, cons: nat, hist: seq<Cqe>, info: seq<Info>, s: nat, t: Cqe,
                    ms: seq<Mini>)
    requires 0 < |b| == |b'| && |info| == |hist| && s <= cons < s + |ms| <= |hist| && info[cons] == Member(s, t, ms)
    requires forall p :: cons <= p < |hist| ==> WellFormed(info, hist, e, |b|, p)
    requires forall p: nat :: s <= p < s + |b| ==>
      At(b', p) == if cons <= p < s + |ms| then InPlace(e.MpRq(t), t, ms, p - s, Lap(p, |b|)) else At(b, p)
    ensures forall p :: cons <= p < s + |ms| ==> PlainAt(b', p, hist[p])
    ensures forall p: nat :: s + |ms| <= p < cons + |b| ==> At(b', p) == At(b, p)
  {
    assert WellFormed(info, hist, e, |b|, cons);
    forall p | cons <= p < s + |ms|
      ensures PlainAt(b', p, hist[p])
    {
      assert WellFormed(info, hist, e, |b|, p) && info[p] == info[cons];
      InPlaceIsPlain(b', p, e.MpRq(t), t, ms, p - s);
    }
    SameNextLap(b, b', s, cons);
  }

  /** What software finds at `cons` when no session is open. */
  lemma HeadOfQueue(e: Env, b: seq<Cqe>, cons: nat, hist: seq<Cqe>, info: seq<Info>)
    requires Inv(e, b, cons, 0, hist, info)
    ensures SwOwned(b, cons) <==> cons < |hist|
    ensures cons < |hist| ==> (At(b, cons).op.format == COMPRESSED <==> info[cons].Member?)
    ensures cons < |hist| && info[cons].Member? ==> info[cons].start == cons
    ensures cons < |hist| && info[cons].Plain? ==> Strip(At(b, cons)) == hist[cons]
  {
    if cons < |hist| {
      assert WellFormed(info, hist, e, |b|, cons) && Untouched(e, b, info, hist, cons);
    }
  }

  /** A consumed slot does not look software-owned on the next lap. */
  lemma ConsumedIsNotOwned(b: seq<Cqe>, p: nat)
    requires 0 < |b| && At(b, p).op.owner == Lap(p, |b|)
    ensures !SwOwned(b, p + |b|)
  {
    NextLap(b, p);
  }

  lemma PollPlainKeepsInv(e: Env, b: seq<Cqe>, cons: nat, hist: seq<Cqe>, info: seq<Info>)
    requires Inv(e, b, cons, 0, hist, info) && cons < |hist| && info[cons].Plain?
    ensures Inv(e, b, cons + 1, 0, hist, info)
  {
    assert Untouched(e, b, info, hist, cons);
    ConsumedIsNotOwned(b, cons);
    forall p | cons + 1 <= p < |hist| && info[p].Member?
      ensures cons + 1 <= info[p].start
    {
      assert WellFormed(info, hist, e, |b|, p);
    }
  }

  /** What delivering one entry of the open session does to `lz`. */
  function Delivered(lz: Lazy): Lazy
    requires 0 < lz.left && lz.miniIdx < |lz.minis|
  {
    var m := lz.minis[lz.miniIdx];
    lz.(next := FromMini(lz.next, lz.req, m, lz.wqeCnt),
        wqeCnt := if lz.req then lz.wqeCnt else (lz.wqeCnt + Advance(lz.mpRq, m)) % 0x1_0000,
        miniIdx := lz.miniIdx + 1, left := lz.left - 1)
  }

  lemma DeliverKeepsInv(e: Env, b: seq<Cqe>, cons: nat, lz: Lazy, chunk: nat, hist: seq<Cqe>, info: seq<Info>)
    requires Inv(e, b, cons, lz.left, hist, info) && Open(e, b, cons, lz, chunk, info)
    requires 0 < lz.left && lz.miniIdx < MINI_ARR_SIZE
    ensures |lz.minis| == MINI_ARR_SIZE && cons < |hist|
    ensures Inv(e, b, cons + 1, lz.left - 1, hist, info)
    ensures Open(e, b, cons + 1, Delivered(lz), chunk, info)
    ensures Strip(Delivered(lz).next) == hist[cons]
  {
    hide At, Lap, WqeAt, FromMini, Strip, RawSession, ChunksAt;
    var Member(s, t, ms) := info[cons];
    assert WellFormed(info, hist, e, |b|, cons);
    assert lz.minis[lz.miniIdx] == ms[cons - s];
    ConsumedIsNotOwned(b, cons);
    DeliverTracks(e, lz, t, ms, cons - s);
  }

  lemma DeliverTracks(e: Env, lz: Lazy, t: Cqe, ms: seq<Mini>, done: nat)
    requires Tracks(e, lz, t, ms, done) && t.op.format == COMPRESSED
    requires lz.miniIdx < |lz.minis| && lz.minis[lz.miniIdx] == ms[done]
    ensures done + 1 < |ms| ==> Tracks(e, Delivered(lz), t, ms, done + 1)
    ensures Strip(Delivered(lz).next) == Expand(e.MpRq(t), t, ms, done)
  {
  }

  /** The fields of `lz` that stay the same while session `(t, ms)` is delivered. */
  ghost predicate Tracks(e: Env, lz: Lazy, t: Cqe, ms: seq<Mini>, done: nat)
  {
    && done < |ms| && lz.left == |ms| - done
    && lz.req == IsRequestor(t.op.opcode) && lz.mpRq == e.MpRq(t)
    && Core(lz.next, lz.req) == Core(t, lz.req) && lz.next.op.format == COMPRESSED
    && (!lz.req ==> lz.wqeCnt == WqeAt(lz.mpRq, t.wqeCounter, ms, done))
  }

  /** Loading chunk `k` of a session: the loaded mini-CQEs are that chunk, its slots are
      marked, and the later chunks are still in the ring. */
  lemma LoadChunkKeepsInv(e: Env, b: seq<Cqe>, b': seq<Cqe>, cons: nat, lz: Lazy, k: nat, hist: seq<Cqe>,
                          info: seq<Info>)
    requires Inv(e, b, cons, lz.left, hist, info) && cons < |hist| && info[cons].Member? && |b'| == |b|
    requires var Member(s, t, ms) := info[cons];
      && |ms| <= |b| && cons == s + 8 * k && 8 * k < |ms| && ChunksAt(e, b, s, ms, k)
      && Tracks(e, lz, t, ms, 8 * k) && lz.miniIdx == 0
      && lz.minis == e.Minis(At(b, if k == 0 then cons + 1 else cons))
    requires forall p: nat :: cons <= p < cons + |b| ==>
      At(b', p) == if p < cons + lz.left && p < cons + 8 then Marked(At(b, p), Lap(p, |b|)) else At(b, p)
    ensures Inv(e, b', cons, lz.left, hist, info) && Open(e, b', cons, lz, k, info)
  {
    MarkKeepsInv(e, b, b', cons, lz.left, hist, info);
    LoadOpens(e, b, b', cons, lz, k, info);
  }

  lemma LoadOpens(e: Env, b: seq<Cqe>, b': seq<Cqe>, cons: nat, lz: Lazy, k: nat, info: seq<Info>)
    requires 0 < |b| == |b'| && cons < |info| && info[cons].Member?
    requires var Member(s, t, ms) := info[cons];
      && |ms| <= |b| && cons == s + 8 * k && 8 * k < |ms| && ChunksAt(e, b, s, ms, k)
      && Tracks(e, lz, t, ms, 8 * k) && lz.miniIdx == 0
      && lz.minis == e.Minis(At(b, if k == 0 then cons + 1 else cons))
    requires forall p: nat :: cons <= p < cons + |b| ==>
      At(b', p) == if p < cons + lz.left && p < cons + 8 then Marked(At(b, p), Lap(p, |b|)) else At(b, p)
    ensures Open(e, b', cons, lz, k, info)
  {
    var Member(s, t, ms) := info[cons];
    assert HoldsChunk(e.Minis(At(b, s + ChunkSlot(k))), ms, k);
    ChunksUnmoved(e, b, b', s, ms, k + 1);
  }

  /** Behind plain entries up to `at`, a member of a session is its title, and everything
      behind that session is still untouched. */
  lemma SessionAhead(e: Env, b: seq<Cqe>, cons: nat, at: nat, hist: seq<Cqe>, info: seq<Info>)
    requires Inv(e, b, cons, 0, hist, info) && cons <= at < |hist| && info[at].Member?
    requires forall p :: cons <= p < at ==> info[p].Plain?
    ensures info[at].start == at && RawSession(e, b, at, info[at].title, info[at].ms)
    ensures 2 <= |info[at].ms| <= |b| && at + |info[at].ms| <= |hist| && info[at].title.op.opcode != INVALID
    ensures Inv(e, b, cons, at + |info[at].ms| - cons, hist, info)
  {
    assert WellFormed(info, hist, e, |b|, at) && Untouched(e, b, info, hist, at);
    assert info[info[at].start] == info[at];
    forall p | at + |info[at].ms| <= p < |hist| && info[p].Member?
      ensures at + |info[at].ms| <= info[p].start
    {
      assert WellFormed(info, hist, e, |b|, p);
      assert info[info[p].start] == info[p];
    }
  }

  /** Marking slots of the open session disturbs nothing behind it. */
  lemma MarkKeepsInv(e: Env, b: seq<Cqe>, b': seq<Cqe>, cons: nat, left: nat, hist: seq<Cqe>, info: seq<Info>)
    requires Inv(e, b, cons, left, hist, info) && |b'| == |b|
    requires forall p: nat :: cons + left <= p < cons + |b| ==> At(b', p) == At(b, p)
    ensures Inv(e, b', cons, left, hist, info)
  {
    forall p | cons + left <= p < |hist|
      ensures Untouched(e, b', info, hist, p)
    {
      assert WellFormed(info, hist, e, |b|, p) && Untouched(e, b, info, hist, p);
      if info[p].Member? && info[p].start == p {
        ChunksUnmoved(e, b, b', p, info[p].ms, 0);
      }
    }
    forall q | |hist| <= q < cons + |b|
      ensures !SwOwned(b', q)
    {
      assert !SwOwned(b, q);
    }
  }

  lemma ChunksUnmoved(e: Env, b: seq<Cqe>, b': seq<Cqe>, s: nat, ms: seq<Mini>, from: nat)
    requires 0 < |b| == |b'| && ChunksAt(e, b, s, ms, from)
    requires forall k: nat :: from <= k && 8 * k < |ms| ==>
      At(b', s + ChunkSlot(k)) == At(b, s + ChunkSlot(k))
    ensures ChunksAt(e, b', s, ms, from)
  {
  }

  /** New completions behind the old ones disturb neither those nor the open session. */
  lemma AppendKeepsInv(e: Env, b: seq<Cqe>, b': seq<Cqe>, cons: nat, lz: Lazy, chunk: nat, hist: seq<Cqe>,
                       hist': seq<Cqe>, info: seq<Info>, info': seq<Info>)
    requires Inv(e, b, cons, lz.left, hist, info) && Open(e, b, cons, lz, chunk, info)
    requires |b'| == |b| && |info'| == |hist'| <= cons + |b| && hist <= hist' && info <= info'
    requires forall p: nat :: cons <= p < |hist| || |hist'| <= p < cons + |b| ==> At(b', p) == At(b, p)
    requires forall p :: |hist| <= p < |hist'| ==> WellFormed(info', hist', e, |b|, p)
    requires forall p :: |hist| <= p < |hist'| ==> Untouched(e, b', info', hist', p)
    requires forall p :: |hist| <= p < |hist'| && info'[p].Member? ==> |hist| <= info'[p].start
    ensures Inv(e, b', cons, lz.left, hist', info') && Open(e, b', cons, lz, chunk, info')
  {
    hide At, Lap, Strip, Expand, Tracks;
    forall p | cons <= p < |hist|
      ensures WellFormed(info', hist', e, |b|, p)
      ensures cons + lz.left <= p ==> Untouched(e, b', info', hist', p)
    {
      AppendEntry(e, b, b', cons, lz.left, hist, hist', info, info', p);
    }
    forall q | |hist'| <= q < cons + |b|
      ensures !SwOwned(b', q)
    {
      assert !SwOwned(b, q);
    }
    if 0 < lz.left {
      assert WellFormed(info, hist, e, |b|, cons);
      ChunksUnmoved(e, b, b', info[cons].start, info[cons].ms, chunk + 1);
    }
  }

  lemma AppendEntry(e: Env, b: seq<Cqe>, b': seq<Cqe>, cons: nat, left: nat, hist: seq<Cqe>, hist': seq<Cqe>,
                    info: seq<Info>, info': seq<Info>, p: nat)
    requires Inv(e, b, cons, left, hist, info) && cons <= p < |hist|
    requires |b'| == |b| && |info'| == |hist'| && hist <= hist' && info <= info'
    requires forall p: nat :: cons <= p < |hist| ==> At(b', p) == At(b, p)
    ensures WellFormed(info', hist', e, |b|, p)
    ensures cons + left <= p ==> Untouched(e, b', info', hist', p)
  {
    hide At, Lap, Strip, Expand;
    assert WellFormed(info, hist, e, |b|, p);
    if cons + left <= p {
      assert Untouched(e, b, info, hist, p);
      if info[p].Member? && info[p].start == p {
        ChunksUnmoved(e, b, b', p, info[p].ms, 0);
      }
    }
  }

  /** A freshly written session is in the form that polling expects. */
  lemma SessionIsNew(e: Env, b: seq<Cqe>, hist: seq<Cqe>, hist': seq<Cqe>, info: seq<Info>, info': seq<Info>,
                     title: Cqe, t: Cqe, ms: seq<Mini>)
    requires 0 < |b| && 2 <= |ms| <= |b| && |ms| < 0x1_0000 && |info| == |hist|
    requires t == title.(op := title.op.(owner := Lap(|hist|, |b|)))
    requires t.op.opcode != INVALID && t.op.format == COMPRESSED && t.byteCnt == |ms|
    requires hist' == hist + Expansion(e.MpRq(title), title, ms)
    requires info' == info + seq(|ms|, i => Member(|hist|, t, ms))
    requires At(b, |hist|) == t && ChunksAt(e, b, |hist|, ms, 0)
    ensures forall p :: |hist| <= p < |hist'| ==> WellFormed(info', hist', e, |b|, p)
    ensures forall p :: |hist| <= p < |hist'| ==> Untouched(e, b, info', hist', p)
  {
    forall i: nat | i < |ms|
      ensures Expand(e.MpRq(title), title, ms, i) == Expand(e.MpRq(t), t, ms, i)
    {
    }
  }

  /** In the current window software owns exactly the pending positions, as far as no
      unexpanded session lies before them. */
  lemma SwOwnedIffPending(e: Env, b: seq<Cqe>, cons: nat, at: nat, hist: seq<Cqe>, info: seq<Info>)
    requires Inv(e, b, cons, 0, hist, info) && cons <= at <= |hist| && at < cons + |b|
    requires forall p :: cons <= p < at ==> info[p].Plain?
    ensures SwOwned(b, at) <==> at < |hist|
    ensures at < |hist| ==> (At(b, at).op.format == COMPRESSED <==> info[at].Member?)
  {
    if at < |hist| {
      if info[at].Member? {
        SessionAhead(e, b, cons, at, hist, info);
      } else {
        assert Untouched(e, b, info, hist, at);
      }
    }
  }

  /** Expanding the session at `at` in place, seen in the window of the queue. */
  lemma SessionExpanded(e: Env, b: seq<Cqe>, b': seq<Cqe>, cons: nat, at: nat, hist: seq<Cqe>, info: seq<Info>)
    requires Inv(e, b, cons, 0, hist, info) && cons <= at < |hist| && |b'| == |b|
    requires info[at].Member? && forall p :: cons <= p < at ==> info[p].Plain?
    requires var Member(s, t, ms) := info[at];
      forall p: nat :: at <= p < at + |b| ==>
        At(b', p) == if p < at + |ms| then InPlace(e.MpRq(t), t, ms, p - at, Lap(p, |b|)) else At(b, p)
    ensures forall p :: cons <= p < at + |info[at].ms| ==> p < |hist| && PlainAt(b', p, hist[p])
    ensures forall p: nat :: at + |info[at].ms| <= p < cons + |b| ==> At(b', p) == At(b, p)
  {
    SessionAhead(e, b, cons, at, hist, info);
    RestIsPlain(e, b, b', at, hist, info, at, info[at].title, info[at].ms);
    SameNextLap(b, b', cons, at);
    forall p | cons <= p < at
      ensures PlainAt(b', p, hist[p])
    {
      assert Untouched(e, b, info, hist, p);
    }
  }

  /** A new ring into which the pending entries up to `i` have been copied. */
  ghost predicate Copied(d: seq<Cqe>, cons: nat, i: nat, hist: seq<Cqe>)
  {
    && 0 < |d| && cons <= i < |hist| && i <= cons + |d|
    && (forall q: nat :: cons <= q < i ==> PlainAt(d, q + 1, hist[q]))
    && (forall q: nat :: i + 1 <= q < cons + 1 + |d| ==> At(d, q).op.opcode == INVALID)
  }

  lemma CopiedStep(d: seq<Cqe>, cons: nat, i: nat, hist: seq<Cqe>, c: Cqe)
    requires Copied(d, cons, i, hist) && i < |hist| - 1 && i < cons + |d|
    requires c.op.opcode != INVALID && c.op.format != COMPRESSED && c.op.owner == Lap(i + 1, |d|)
    requires Strip(c) == hist[i]
    ensures Copied(d[(i + 1) % |d| := c], cons, i + 1, hist)
  {
    var d' := d[(i + 1) % |d| := c];
    UpdateAt(d, i + 1, c, cons + 1);
    forall q: nat | cons <= q < i + 1
      ensures PlainAt(d', q + 1, hist[q])
    {
      assert q < i ==> PlainAt(d, q + 1, hist[q]);
    }
  }

  lemma CopiedInv(e: Env, d: seq<Cqe>, cons: nat, m: nat, hist: seq<Cqe>, hist': seq<Cqe>, info: seq<Info>)
    requires |info| == m + 1 <= |hist| && Copied(d, cons, m, hist)
    requires forall p :: cons <= p <= m ==> info[p].Plain?
    requires hist' == hist[..cons + 1] + hist[cons..m]
    ensures Inv(e, d, cons + 1, 0, hist', info)
    ensures hist'[cons + 1..] == hist[cons..m]
  {
    forall p | cons + 1 <= p < |hist'|
      ensures Untouched(e, d, info, hist', p)
    {
      assert hist'[p] == hist[p - 1];
      assert PlainAt(d, (p - 1) + 1, hist[p - 1]);
    }
  }

  /** Where the first RESIZE marker is among pending entries; behind them all if there is none. */
  function MarkerAt(s: seq<Cqe>): (k: nat)
    ensures k <= |s|
    ensures (forall i :: 0 <= i < k ==> s[i].op.opcode != RESIZE_CQ) && (k < |s| ==> s[k].op.opcode == RESIZE_CQ)
  {
    if s == [] || s[0].op.opcode == RESIZE_CQ then 0 else 1 + MarkerAt(s[1..])
  }
}
