/** The completion queue: a ring shared with the device, polled entry by entry, with
    compressed sessions expanded lazily (per poll) or eagerly (in place), cleaned of a
    destroyed resource's entries, and moved to a ring of another size.
 */
module CompletionQueues {
  import opened Common
  import opened Ring
  import opened Cqes
  import opened CqInvariant
  import opened CqClean

  /** The entries at `[lo, hi)` are the expanded ones of a session that starts at `s`; the others are as before. */
  ghost predicate Spread(b0: seq<Cqe>, b: seq<Cqe>, s: nat, lo: nat, hi: nat, mp: bool, t: Cqe, ms: seq<Mini>)
    requires 0 < |b0| == |b| && s <= lo && hi <= s + |ms|
  {
    forall p: nat :: s <= p < s + |b| ==>
      At(b, p) == if lo <= p < hi then InPlace(mp, t, ms, p - s, Lap(p, |b|)) else At(b0, p)
  }

  lemma SpreadNone(b: seq<Cqe>, s: nat, lo: nat, mp: bool, t: Cqe, ms: seq<Mini>)
    requires 0 < |b| && s <= lo <= s + |ms|
    ensures Spread(b, b, s, lo, lo, mp, t, ms)
  {
  }

  lemma SpreadOne(b: seq<Cqe>, c: Cqe, s: nat, at: nat, mp: bool, t: Cqe, ms: seq<Mini>)
    requires 0 < |b| && s <= at < s + |ms| <= s + |b| && c == InPlace(mp, t, ms, at - s, Lap(at, |b|))
    ensures Spread(b, b[at % |b| := c], s, at, at + 1, mp, t, ms)
  {
    hide At, Lap, InPlace;
    UpdateAt(b, at, c, s);
  }

  lemma SpreadMore(b0: seq<Cqe>, b1: seq<Cqe>, b2: seq<Cqe>, s: nat, lo: nat, mid: nat, hi: nat, mp: bool, t: Cqe,
                   ms: seq<Mini>)
    requires 0 < |b0| == |b1| == |b2| && s <= lo <= mid <= hi <= s + |ms|
    requires Spread(b0, b1, s, lo, mid, mp, t, ms) && Spread(b1, b2, s, mid, hi, mp, t, ms)
    ensures Spread(b0, b2, s, lo, hi, mp, t, ms)
  {
    hide At, Lap, InPlace;
  }

  lemma SpreadBeyond(b0: seq<Cqe>, b: seq<Cqe>, s: nat, lo: nat, hi: nat, mp: bool, t: Cqe, ms: seq<Mini>)
    requires 0 < |b0| == |b| && s <= lo <= hi < s + |ms| && |ms| <= |b| && Spread(b0, b, s, lo, hi, mp, t, ms)
    ensures At(b, hi) == At(b0, hi)
  {
  }

  /** What is known of an open session. */
  lemma OpenSessionIs(e: Env, b: seq<Cqe>, cons: nat, lz: Lazy, chunk: nat, hist: seq<Cqe>, info: seq<Info>)
    requires Inv(e, b, cons, lz.left, hist, info) && 0 < |b| && Open(e, b, cons, lz, chunk, info) && 0 < lz.left
    requires |info| == |hist|
    ensures cons < |info| && info[cons].Member?
    ensures var Member(s, t, ms) := info[cons];
      && |ms| <= |b| && s <= cons < s + |ms| && lz.left == s + |ms| - cons && lz.miniIdx <= MINI_ARR_SIZE
      && cons - s == 8 * chunk + lz.miniIdx && |lz.minis| == MINI_ARR_SIZE && HoldsChunk(lz.minis, ms, chunk)
      && ChunksAt(e, b, s, ms, chunk + 1) && Tracks(e, lz, t, ms, cons - s)
      && t.op.opcode != INVALID && t.op.format == COMPRESSED
  {
    hide At, Lap, Untouched, PlainAt;
    assert WellFormed(info, hist, e, |b|, cons);
  }

  /** What is left of the open session has been expanded in place. */
  lemma RestExpanded(e: Env, b: seq<Cqe>, b': seq<Cqe>, cons: nat, left: nat, hist: seq<Cqe>, info: seq<Info>,
                     info': seq<Info>, s: nat, t: Cqe, ms: seq<Mini>)
    requires Inv(e, b, cons, left, hist, info) && |b'| == |b| && 0 < |b| && |info'| == |info| && cons < |info|
    requires info[cons] == Member(s, t, ms) && s <= cons < s + |ms| && left == s + |ms| - cons
    requires Spread(b, b', s, cons, s + |ms|, e.MpRq(t), t, ms)
    requires forall p :: 0 <= p < |info| ==> info'[p] == if cons <= p < cons + left then Plain else info[p]
    ensures Inv(e, b', cons, 0, hist, info')
  {
    hide At, Lap, InPlace, PlainAt, Untouched;
    RestIsPlain(e, b, b', cons, hist, info, s, t, ms);
    ExpandKeepsInv(e, b, b', cons, left, hist, info, info');
  }

  lemma ChunkPart(arr: seq<Mini>, ms: seq<Mini>, k: nat, cnt: nat)
    requires |arr| == MINI_ARR_SIZE && HoldsChunk(arr, ms, k) && cnt <= MINI_ARR_SIZE && 8 * k + cnt <= |ms|
    ensures forall i :: 0 <= i < cnt ==> arr[i] == ms[8 * k + i]
  {
  }

  lemma ChunkRest(arr: seq<Mini>, ms: seq<Mini>, k: nat, from: nat, cnt: nat)
    requires |arr| == MINI_ARR_SIZE && HoldsChunk(arr, ms, k)
    requires from + cnt <= MINI_ARR_SIZE && 8 * k + from + cnt <= |ms|
    ensures forall i :: 0 <= i < cnt ==> arr[from..][i] == ms[8 * k + from + i]
  {
  }

  /** Expanding the rest of chunk `k` leaves the chunks behind the next one in place. */
  lemma ChunksLater(e: Env, b0: seq<Cqe>, b: seq<Cqe>, s: nat, lo: nat, k: nat, mp: bool, t: Cqe, ms: seq<Mini>)
    requires 0 < |b0| == |b| && s <= lo <= s + 8 * (k + 1) <= s + |ms| && |ms| <= |b|
    requires ChunksAt(e, b0, s, ms, k + 1) && Spread(b0, b, s, lo, s + 8 * (k + 1), mp, t, ms)
    ensures ChunksAt(e, b, s, ms, k + 2)
  {
    hide At, Lap, InPlace, HoldsChunk;
    forall j: nat | k + 2 <= j && 8 * j < |ms|
      ensures HoldsChunk(e.Minis(At(b, s + ChunkSlot(j))), ms, j)
    {
      assert At(b, s + ChunkSlot(j)) == At(b0, s + ChunkSlot(j));
    }
  }

  /** While the chunks before chunk `k` are expanded, its slot still carries it. */
  lemma ChunkAhead(e: Env, b0: seq<Cqe>, b: seq<Cqe>, s: nat, lo: nat, k0: nat, k: nat, mp: bool, t: Cqe, ms: seq<Mini>)
    requires 0 < |b0| == |b| && s <= lo <= s + 8 * k <= s + |ms| && |ms| <= |b| && k0 < k
    requires ChunksAt(e, b0, s, ms, k0 + 1) && Spread(b0, b, s, lo, s + 8 * k, mp, t, ms)
    ensures HoldsChunk(e.Minis(b[(s + 8 * k) % |b|]), ms, k)
  {
    hide At, Lap, Spread;
    AtSlot(b, s + 8 * k);
    if 8 * k < |ms| {
      SpreadBeyond(b0, b, s, lo, s + 8 * k, mp, t, ms);
      assert HoldsChunk(e.Minis(At(b0, s + ChunkSlot(k))), ms, k);
    }
  }

  class CompletionQueue {
    const e: Env
    var buf: array<Cqe>
    var cons: nat
    var lz: Lazy
    var prod: nat  // the device's own producer index

    ghost var hist: seq<Cqe>
    ghost var info: seq<Info>
    ghost var chunk: nat  // which chunk of the open session `lz.minis` holds

    ghost predicate Valid()
      reads this, buf
    {
      && cons <= |hist| == prod && |info| == |hist| && |hist| <= cons + buf.Length && 0 < buf.Length
      && Inv(e, buf[..], cons, lz.left, hist, info) && Open(e, buf[..], cons, lz, chunk, info)
    }

    function Deref(t: TitlePtr): Cqe
      reads this, buf
      requires t.InSlot? ==> t.slot < buf.Length
    {
      if t.InSlot? then buf[t.slot] else lz.next
    }

    /** `title` still carries everything that expansion needs of the session title `t`. */
    ghost predicate TitleFor(title: TitlePtr, t: Cqe)
      reads this, buf
    {
      && t.op.opcode != INVALID && t.op.format == COMPRESSED
      && (title.InSlot? ==> title.slot < buf.Length)
      && Core(Deref(title), IsRequestor(t.op.opcode)) == Core(t, IsRequestor(t.op.opcode))
    }

    /** Writes `cnt` expanded entries of the session at `s` from position `idx` on;
        `title` may point at the first slot that is overwritten. */
    method CopyCqes(arr: seq<Mini>, title: TitlePtr, cnt: nat, wqe: nat, idx: nat, mp: bool, ghost t: Cqe,
                    ghost ms: seq<Mini>, ghost s: nat)
      returns (wqe': nat)
      requires 0 < buf.Length && |ms| <= buf.Length && s <= idx && idx - s + cnt <= |ms|
      requires cnt <= |arr| && forall i :: 0 <= i < cnt ==> arr[i] == ms[idx - s + i]
      requires TitleFor(title, t)
      requires !IsRequestor(t.op.opcode) ==> wqe == WqeAt(mp, t.wqeCounter, ms, idx - s)
      modifies buf
      ensures TitleFor(title, t)
      ensures !IsRequestor(t.op.opcode) ==> wqe' == WqeAt(mp, t.wqeCounter, ms, idx - s + cnt)
      ensures Spread(old(buf[..]), buf[..], s, idx, idx + cnt, mp, t, ms)
    {
      hide Spread, WqeAt, TitleFor, IsRequestor;
      wqe' := wqe;
      SpreadNone(buf[..], s, idx, mp, t, ms);
      var i := 0;
      while i < cnt
        invariant 0 <= i <= cnt
        invariant !IsRequestor(t.op.opcode) ==> wqe' == WqeAt(mp, t.wqeCounter, ms, idx - s + i)
        invariant TitleFor(title, t)
        invariant Spread(old(buf[..]), buf[..], s, idx, idx + i, mp, t, ms)
      {
        ghost var mid := buf[..];
        wqe' := CopyCqe(arr[i], title, wqe', idx + i, mp, t, ms, s);
        SpreadMore(old(buf[..]), mid, buf[..], s, idx, idx + i, idx + i + 1, mp, t, ms);
        i := i + 1;
      }
    }

    method CopyCqe(m: Mini, title: TitlePtr, wqe: nat, at: nat, mp: bool, ghost t: Cqe, ghost ms: seq<Mini>,
                   ghost s: nat)
      returns (wqe': nat)
      requires 0 < buf.Length && |ms| <= buf.Length && s <= at < s + |ms| && m == ms[at - s]
      requires TitleFor(title, t)
      requires !IsRequestor(t.op.opcode) ==> wqe == WqeAt(mp, t.wqeCounter, ms, at - s)
      modifies buf
      ensures TitleFor(title, t)
      ensures !IsRequestor(t.op.opcode) ==> wqe' == WqeAt(mp, t.wqeCounter, ms, at - s + 1)
      ensures Spread(old(buf[..]), buf[..], s, at, at + 1, mp, t, ms)
    {
      hide At, Lap, Spread, InPlace;
      var isReq := IsRequestor(Deref(title).op.opcode);
      var c := FromMini(Deref(title), isReq, m, wqe);
      c := c.(op := Deref(title).op.(format := 0, owner := Lap(at, buf.Length)));
      CoreSuffices(Deref(title), mp, t, ms, at - s, Lap(at, buf.Length));
      buf[at % buf.Length] := c;
      assert buf[..] == old(buf[..])[at % buf.Length := c];
      SpreadOne(old(buf[..]), c, s, at, mp, t, ms);
      wqe' := if isReq then wqe else (wqe + Advance(mp, m)) % 0x1_0000;
    }

    /** Expands chunk `k0`, already read into `arr0`, and all later chunks of a session. */
    method CopyChunks(arr0: seq<Mini>, title: TitlePtr, cnt0: nat, wqe0: nat, at0: nat, mp: bool, ghost t: Cqe,
                      ghost ms: seq<Mini>, ghost s: nat, ghost k0: nat)
      requires 0 < buf.Length && |ms| <= buf.Length
      requires at0 == s + 8 * k0 && cnt0 == |ms| - 8 * k0
      requires |arr0| == MINI_ARR_SIZE && HoldsChunk(arr0, ms, k0)
      requires ChunksAt(e, buf[..], s, ms, k0 + 1)
      requires TitleFor(title, t)
      requires !IsRequestor(t.op.opcode) ==> wqe0 == WqeAt(mp, t.wqeCounter, ms, 8 * k0)
      modifies buf
      ensures Spread(old(buf[..]), buf[..], s, at0, s + |ms|, mp, t, ms)
    {
      hide At, Lap, Spread, WqeAt, IsRequestor, TitleFor, HoldsChunk, ChunksAt;
      var arr, cnt, wqe, at := arr0, cnt0, wqe0, at0;
      ghost var k, b0 := k0, buf[..];
      SpreadNone(b0, s, at0, mp, t, ms);
      while cnt > MINI_ARR_SIZE - 1
        invariant k0 <= k && at == s + 8 * k && 0 <= cnt == |ms| - 8 * k
        invariant |arr| == MINI_ARR_SIZE && HoldsChunk(arr, ms, k)
        invariant !IsRequestor(t.op.opcode) ==> wqe == WqeAt(mp, t.wqeCounter, ms, 8 * k)
        invariant TitleFor(title, t) && Spread(b0, buf[..], s, at0, at, mp, t, ms)
      {
        ghost var mid := buf[..];
        ChunkPart(arr, ms, k, MINI_ARR_SIZE);
        wqe := CopyCqes(arr, title, MINI_ARR_SIZE, wqe, at, mp, t, ms, s);
        SpreadMore(b0, mid, buf[..], s, at0, at, at + MINI_ARR_SIZE, mp, t, ms);
        arr := e.Minis(buf[(at + MINI_ARR_SIZE) % buf.Length]);
        at, cnt, k := at + MINI_ARR_SIZE, cnt - MINI_ARR_SIZE, k + 1;
        ChunkAhead(e, b0, buf[..], s, at0, k0, k, mp, t, ms);
      }
      ghost var mid := buf[..];
      ChunkPart(arr, ms, k, cnt);
      wqe := CopyCqes(arr, title, cnt, wqe, at, mp, t, ms, s);
      SpreadMore(b0, mid, buf[..], s, at0, at, s + |ms|, mp, t, ms);
    }

    /** Expands in place the session whose title is at position `idx`. */
    method DecompressIdx(idx: nat, ghost t: Cqe, ghost ms: seq<Mini>)
      requires 0 < buf.Length && 2 <= |ms| <= buf.Length && t.op.opcode != INVALID
      requires RawSession(e, buf[..], idx, t, ms)
      modifies buf
      ensures forall p: nat :: idx <= p < idx + buf.Length ==>
        At(buf[..], p) == if p < idx + |ms| then InPlace(e.MpRq(t), t, ms, p - idx, Lap(p, buf.Length))
                          else At(old(buf[..]), p)
    {
      var title := InSlot(idx % buf.Length);
      var arr := e.Minis(buf[(idx + 1) % buf.Length]);
      assert HoldsChunk(e.Minis(At(buf[..], idx + ChunkSlot(0))), ms, 0);
      CopyChunks(arr, title, Deref(title).byteCnt, Deref(title).wqeCounter, idx,
                 e.MpRq(Deref(title)), t, ms, idx, 0);
    }

    /** Expands in place what the lazy path has not yet delivered of its open session. */
    method DecompressCurr()
      requires Valid()
      modifies this`lz, this`info, buf
      ensures Valid() && lz.left == 0 && |info| == |old(info)|
      ensures forall p :: 0 <= p < |info| ==>
        info[p] == if cons <= p < cons + old(lz.left) then Plain else old(info)[p]
    {
      hide Inv, Open, Spread, WqeAt, HoldsChunk, ChunksAt, IsRequestor, Env.MpRq, Core;
      if lz.left == 0 { return; }
      OpenSessionIs(e, buf[..], cons, lz, chunk, hist, info);
      ghost var Member(s, t, ms) := info[cons];
      ExpandRest(s, t, ms);
      ghost var (was, lo, hi) := (info, cons, cons + lz.left);
      info := seq(|was|, i requires 0 <= i < |was| => if lo <= i < hi then Plain else was[i]);
      RestExpanded(e, old(buf[..]), buf[..], cons, lz.left, hist, old(info), info, s, t, ms);
      lz := lz.(left := 0);
      NothingOpen(e, buf[..], cons, lz, chunk, info);
    }

    method ExpandRest(ghost s: nat, ghost t: Cqe, ghost ms: seq<Mini>)
      requires 0 < buf.Length && |ms| <= buf.Length && TitleFor(Saved, t)
      requires s <= cons < s + |ms| && lz.left == s + |ms| - cons
      requires lz.miniIdx <= MINI_ARR_SIZE && cons - s == 8 * chunk + lz.miniIdx
      requires |lz.minis| == MINI_ARR_SIZE && HoldsChunk(lz.minis, ms, chunk)
      requires ChunksAt(e, buf[..], s, ms, chunk + 1)
      requires !IsRequestor(t.op.opcode) ==> lz.wqeCnt == WqeAt(lz.mpRq, t.wqeCounter, ms, cons - s)
      modifies buf
      ensures Spread(old(buf[..]), buf[..], s, cons, s + |ms|, lz.mpRq, t, ms)
    {
      hide At, Lap, InPlace, WqeAt, IsRequestor, TitleFor, Spread, HoldsChunk, ChunksAt;
      ghost var b0 := buf[..];
      var cnt := lz.left;
      var first := if cnt <= MINI_ARR_SIZE - lz.miniIdx then cnt else MINI_ARR_SIZE - lz.miniIdx;
      ChunkRest(lz.minis, ms, chunk, lz.miniIdx, first);
      var wqe := CopyCqes(lz.minis[lz.miniIdx..], Saved, first, lz.wqeCnt, cons, lz.mpRq, t, ms, s);
      cnt := cnt - first;
      if cnt > 0 {
        var at := cons + first;
        ghost var mid := buf[..];
        ChunkAhead(e, b0, mid, s, cons, chunk, chunk + 1, lz.mpRq, t, ms);
        ChunksLater(e, b0, mid, s, cons, chunk, lz.mpRq, t, ms);
        CopyChunks(e.Minis(buf[at % buf.Length]), Saved, cnt, wqe, at, lz.mpRq, t, ms, s, chunk + 1);
        SpreadMore(b0, mid, buf[..], s, cons, at, s + |ms|, lz.mpRq, t, ms);
      }
    }

    /** Marks `size` slots from `cons` on as entries of the current lap. */
    method UpdateCqeOwnership(size: nat)
      requires 0 < buf.Length && size <= buf.Length
      modifies buf
      ensures forall p: nat :: cons <= p < cons + buf.Length ==>
        At(buf[..], p) == if p < cons + size then Marked(At(old(buf[..]), p), Lap(p, buf.Length))
                          else At(old(buf[..]), p)
    {
      var n := buf.Length;
      var own := Lap(cons, n);
      var start := cons % n;
      var idx := start;
      while idx < start + size && idx < n
        invariant start <= idx <= start + size && idx <= n
        invariant forall p: nat :: cons <= p < cons + n ==>
          At(buf[..], p) == if p < cons + (idx - start) then Marked(At(old(buf[..]), p), Lap(p, n))
                            else At(old(buf[..]), p)
      {
        MarkSlot(idx, own, cons + (idx - start));
        idx := idx + 1;
      }
      var slot := 0;
      while idx < start + size
        invariant start <= idx <= start + size && (idx < start + size ==> slot == idx - n)
        invariant forall p: nat :: cons <= p < cons + n ==>
          At(buf[..], p) == if p < cons + (idx - start) then Marked(At(old(buf[..]), p), Lap(p, n))
                            else At(old(buf[..]), p)
      {
        MarkSlot(slot, !own, cons + (idx - start));
        idx, slot := idx + 1, slot + 1;
      }
    }

    method MarkSlot(slot: nat, own: bool, ghost x: nat)
      requires slot < buf.Length && cons <= x < cons + buf.Length
      requires var k := x - cons + cons % buf.Length;
               if k < buf.Length then slot == k && own == Lap(cons, buf.Length)
               else slot == k - buf.Length && own == !Lap(cons, buf.Length)
      modifies buf
      ensures forall p: nat :: cons <= p < cons + buf.Length ==>
        At(buf[..], p) == if p == x then Marked(At(old(buf[..]), p), Lap(p, buf.Length))
                          else At(old(buf[..]), p)
    {
      SlotAfter(cons, buf.Length, x - cons);
      buf[slot] := Marked(buf[slot], own);
      assert buf[..] == old(buf[..])[slot := buf[slot]];
      UpdateAt(old(buf[..]), x, buf[slot], cons);
    }

    /** Reads the mini-CQEs at position `idx` and marks the slots they stand for. */
    method SaveMiniArr(idx: nat)
      requires 0 < buf.Length && lz.left <= buf.Length
      modifies this`lz, buf
      ensures lz == old(lz).(minis := e.Minis(At(old(buf[..]), idx)), miniIdx := 0)
      ensures var size := if lz.left < MINI_ARR_SIZE then lz.left else MINI_ARR_SIZE;
              forall p: nat :: cons <= p < cons + buf.Length ==>
                At(buf[..], p) == if p < cons + size then Marked(At(old(buf[..]), p), Lap(p, buf.Length))
                                  else At(old(buf[..]), p)
    {
      lz := lz.(minis := e.Minis(buf[idx % buf.Length]), miniIdx := 0);
      UpdateCqeOwnership(if lz.left < MINI_ARR_SIZE then lz.left else MINI_ARR_SIZE);
    }

    /** Starts delivering the session whose title is at `cons`. */
    method OpenSession()
      requires Valid() && lz.left == 0 && cons < |hist| && info[cons].Member?
      modifies this`lz, this`chunk, buf
      ensures Valid() && 0 < lz.left && lz.miniIdx < MINI_ARR_SIZE
    {
      SessionAhead(e, buf[..], cons, cons, hist, info);
      var title := buf[cons % buf.Length];
      lz := lz.(left := title.byteCnt, wqeCnt := title.wqeCounter, req := IsRequestor(title.op.opcode),
                mpRq := e.MpRq(title), next := title);
      chunk := 0;
      SaveMiniArr(cons + 1);
      LoadChunkKeepsInv(e, old(buf[..]), buf[..], cons, lz, chunk, hist, info);
    }

    /** Moves the open session on to its next chunk. */
    method NextChunk()
      requires Valid() && 0 < lz.left && lz.miniIdx == MINI_ARR_SIZE
      modifies this`lz, this`chunk, buf
      ensures Valid() && 0 < lz.left && lz.miniIdx < MINI_ARR_SIZE
    {
      assert WellFormed(info, hist, e, buf.Length, cons);
      SaveMiniArr(cons);
      chunk := chunk + 1;
      LoadChunkKeepsInv(e, old(buf[..]), buf[..], cons, lz, chunk, hist, info);
    }

    /** Puts the next completion of the open session into `lz.next` and moves on. */
    method DecompNextCqe()
      requires Valid() && 0 < lz.left && lz.miniIdx < MINI_ARR_SIZE
      modifies this`cons, this`lz
      ensures Valid() && cons == old(cons) + 1
      ensures Strip(lz.next) == hist[old(cons)]
    {
      hide Inv, Open, FromMini, Advance, Strip;
      DeliverKeepsInv(e, buf[..], cons, lz, chunk, hist, info);
      var m := lz.minis[lz.miniIdx];
      lz := lz.(next := FromMini(lz.next, lz.req, m, lz.wqeCnt));
      if !lz.req {
        lz := lz.(wqeCnt := (lz.wqeCnt + Advance(lz.mpRq, m)) % 0x1_0000);
      }
      lz := lz.(miniIdx := lz.miniIdx + 1, left := lz.left - 1);
      cons := cons + 1;
    }

    /** Takes one completion off the queue. The queue looks empty exactly when it is, and
        completions come out once each, in the order the device produced them. */
    method Poll() returns (r: Option<Cqe>)
      requires Valid()
      modifies this`cons, this`lz, this`chunk, buf
      ensures Valid()
      ensures r.None? <==> old(cons) == |hist|
      ensures r.None? ==> cons == old(cons)
      ensures r.Some? ==> cons == old(cons) + 1 && Strip(r.value) == hist[old(cons)]
    {
      if lz.left == 0 {
        HeadOfQueue(e, buf[..], cons, hist, info);
        if !SwOwned(buf[..], cons) {
          return None;
        }
        var c := buf[cons % buf.Length];
        if c.op.format != COMPRESSED {
          PollPlainKeepsInv(e, buf[..], cons, hist, info);
          cons := cons + 1;
          return Some(c);
        }
        OpenSession();
      } else if lz.miniIdx == MINI_ARR_SIZE {
        NextChunk();
      }
      DecompNextCqe();
      r := Some(lz.next);
    }

    constructor (env: Env, nent: nat)
      requires 0 < nent
      ensures Valid() && fresh(buf) && buf.Length == nent && e == env
      ensures hist == [] && cons == 0
    {
      e := env;
      var empty := Cqe(OpOwn(INVALID, 0, false, false), 0, 0, 0, 0, 0, 0, []);
      buf := new Cqe[nent](_ => empty);
      cons, prod, hist, info, chunk := 0, 0, [], [], 0;
      lz := Lazy(0, 0, false, false, 0, [], empty);
    }

    /** The device writes one completion. */
    method DevicePlain(c: Cqe)
      requires Valid() && |hist| < cons + buf.Length
      requires c.op.opcode != INVALID && c.op.format != COMPRESSED
      modifies this`prod, this`hist, this`info, buf
      ensures Valid() && hist == old(hist) + [Strip(c)]
    {
      hide Inv, Open, Lap;
      var x := c.(op := c.op.(owner := Lap(prod, buf.Length)));
      buf[prod % buf.Length] := x;
      assert buf[..] == old(buf[..])[prod % buf.Length := x];
      UpdateAt(old(buf[..]), prod, x, cons);
      prod, hist, info := prod + 1, hist + [Strip(c)], info + [Plain];
      AppendKeepsInv(e, old(buf[..]), buf[..], cons, lz, chunk, old(hist), hist, old(info), info);
    }

    /** The device writes a compressed session: the title, the slot behind it, and every
        eighth slot from the title on. `images[k]` is the slot that carries chunk `k`. */
    method DeviceSession(title: Cqe, images: seq<Cqe>, ghost ms: seq<Mini>)
      requires Valid() && 2 <= |ms| < 0x1_0000 && |hist| + |ms| <= cons + buf.Length
      requires title.op.opcode != INVALID && title.op.format == COMPRESSED && title.byteCnt == |ms|
      requires |images| == (|ms| + 7) / 8
      requires forall k: nat :: k < |images| ==> HoldsChunk(e.Minis(images[k]), ms, k)
      modifies this`prod, this`hist, this`info, buf
      ensures Valid() && hist == old(hist) + Expansion(e.MpRq(title), title, ms)
    {
      var t := title.(op := title.op.(owner := Lap(prod, buf.Length)));
      WriteSession(t, images, ms);
      hist := hist + Expansion(e.MpRq(title), title, ms);
      info := info + seq(|ms|, i => Member(|old(hist)|, t, ms));
      SessionIsNew(e, buf[..], old(hist), hist, old(info), info, title, t, ms);
      prod := prod + title.byteCnt;
      AppendKeepsInv(e, old(buf[..]), buf[..], cons, lz, chunk, old(hist), hist, old(info), info);
    }

    method WriteSession(t: Cqe, images: seq<Cqe>, ghost ms: seq<Mini>)
      requires 0 < buf.Length && cons <= prod && prod + |ms| <= cons + buf.Length && 2 <= |ms|
      requires |images| == (|ms| + 7) / 8
      requires forall k: nat :: k < |images| ==> HoldsChunk(e.Minis(images[k]), ms, k)
      modifies buf
      ensures At(buf[..], prod) == t && ChunksAt(e, buf[..], prod, ms, 0)
      ensures forall p: nat :: cons <= p < prod || prod + |ms| <= p < cons + buf.Length ==>
        At(buf[..], p) == At(old(buf[..]), p)
    {
      hide At;
      WriteSlot(prod, t);
      WriteSlot(prod + 1, images[0]);
      var k := 1;
      while k < |images|
        invariant 1 <= k <= |images|
        invariant At(buf[..], prod) == t
        invariant forall j: nat :: j < k ==> At(buf[..], prod + ChunkSlot(j)) == images[j]
        invariant forall p: nat :: cons <= p < prod || prod + |ms| <= p < cons + buf.Length ==>
          At(buf[..], p) == At(old(buf[..]), p)
      {
        WriteSlot(prod + 8 * k, images[k]);
        k := k + 1;
      }
    }

    /** A device write anywhere in the current window. */
    method WriteSlot(p: nat, c: Cqe)
      requires 0 < buf.Length && cons <= p < cons + buf.Length
      modifies buf
      ensures forall q: nat :: cons <= q < cons + buf.Length ==>
        At(buf[..], q) == if q == p then c else At(old(buf[..]), q)
    {
      buf[p % buf.Length] := c;
      assert buf[..] == old(buf[..])[p % buf.Length := c];
      UpdateAt(old(buf[..]), p, c, cons);
    }

    /** Expands all pending sessions and returns the producer index that is found. */
    method ExpandPending() returns (p: nat)
      requires Valid()
      modifies this`lz, this`info, buf
      ensures Valid() && lz.left == 0
      ensures forall q :: cons <= q < |hist| ==> info[q].Plain?
      ensures p == cons + Swept(|hist| - cons, buf.Length) <= |hist| && p < cons + buf.Length
    {
      hide Inv, Open, SwOwned;
      DecompressCurr();
      p := cons;
      while true
        invariant cons <= p <= |hist| && p < cons + buf.Length
        invariant Valid() && lz.left == 0
        invariant forall q :: cons <= q < p ==> info[q].Plain?
        decreases |hist| - p
      {
        SwOwnedIffPending(e, buf[..], cons, p, hist, info);
        if !SwOwned(buf[..], p) { break; }
        if At(buf[..], p).op.format == COMPRESSED {
          ExpandAt(p);
        }
        if p == cons + (buf.Length - 1) { break; }
        p := p + 1;
      }
    }

    method ExpandAt(p: nat)
      requires Valid() && lz.left == 0 && cons <= p < |hist| && info[p].Member?
      requires forall q :: cons <= q < p ==> info[q].Plain?
      modifies this`info, buf
      ensures Valid()
      ensures forall q :: cons <= q <= p ==> info[q].Plain?
    {
      SessionAhead(e, buf[..], cons, p, hist, info);
      ghost var Member(s, t, ms) := info[p];
      DecompressIdx(p, t, ms);
      SessionExpanded(e, old(buf[..]), buf[..], cons, p, hist, info);
      ghost var (was, lo, hi) := (info, cons, p + |ms|);
      info := seq(|was|, i requires 0 <= i < |was| => if lo <= i < hi then Plain else was[i]);
      ExpandKeepsInv(e, old(buf[..]), buf[..], cons, hi - cons, hist, old(info), info);
    }

    /** Removes the pending entries of resource `rsn` by moving the others up, and returns
        the receive WQEs that were given back to the shared receive queue. */
    method Clean(rsn: nat, hasSrq: bool) returns (freed: seq<nat>)
      requires Valid()
      modifies this`cons, this`lz, this`hist, this`info, buf
      ensures Valid() && |hist| == |old(hist)|
      ensures hist[cons..] == Cleaned(e, old(hist[cons..]), rsn, buf.Length)
      ensures freed
        == if hasSrq then Freed(e, old(hist[cons..])[..Swept(|old(hist)| - old(cons), buf.Length)], rsn) else []
    {
      hide At, PlainAt, Keep, Freed, Cleaned, Swept, Sweeping, Inv;
      var m := ExpandPending();
      ghost var b0, was := buf[..], hist;
      AllPlain(e, b0, cons, hist, info);
      var nfreed;
      nfreed, freed := Sweep(m, rsn, hasSrq);
      hist := was[..cons + nfreed] + Keep(e, was[cons..m], rsn) + was[m..];
      SweepDone(e, b0, buf[..], cons, was, info, rsn, m, nfreed, hist);
      cons := cons + nfreed;
    }

    method Sweep(m: nat, rsn: nat, hasSrq: bool) returns (nfreed: nat, freed: seq<nat>)
      requires 0 < buf.Length && cons <= m <= |hist| && m < cons + buf.Length
      requires forall p :: cons <= p < m ==> PlainAt(buf[..], p, hist[p])
      modifies buf
      ensures Sweeping(e, old(buf[..]), buf[..], cons, hist, rsn, cons, m, nfreed) && nfreed <= m - cons
      ensures freed == if hasSrq then Freed(e, hist[cons..m], rsn) else []
    {
      hide At, PlainAt, Sweeping, Freed, Keep, Matches, ReturnsWqe;
      ghost var b0 := buf[..];
      var p := m;
      nfreed, freed := 0, [];
      SweepStart(e, b0, cons, hist, rsn, m);
      while p > cons
        invariant cons <= p <= m && nfreed <= m - p
        invariant Sweeping(e, b0, buf[..], cons, hist, rsn, p, m, nfreed)
        invariant freed == if hasSrq then Freed(e, hist[p..m], rsn) else []
      {
        p := p - 1;
        ghost var before := buf[..];
        SweepLook(e, b0, before, cons, hist, rsn, p, m, nfreed);
        var c := buf[p % buf.Length];
        if Matches(e, c, rsn) {
          if hasSrq && ReturnsWqe(e, c) {
            freed := freed + [c.wqeCounter];
          }
          SweepStep(e, b0, before, before, cons, hist, rsn, p, m, nfreed);
          nfreed := nfreed + 1;
        } else {
          if nfreed > 0 {
            MoveEntry(p, p + nfreed);
          }
          SweepStep(e, b0, before, buf[..], cons, hist, rsn, p, m, nfreed);
        }
      }
    }

    /** Copies the entry at `from` over the one at `to`, whose owner bit stays. */
    method MoveEntry(from: nat, to: nat)
      requires 0 < buf.Length && cons <= from < to < cons + buf.Length
      modifies buf
      ensures forall q: nat :: cons <= q < cons + buf.Length ==>
        var moved, was := At(old(buf[..]), from), At(old(buf[..]), q);
        At(buf[..], q) == if q == to then moved.(op := moved.op.(owner := was.op.owner)) else was
    {
      var n := buf.Length;
      var owner := buf[to % n].op.owner;
      var c := buf[from % n];
      c := c.(op := c.op.(owner := owner));
      buf[to % n] := c;
      assert buf[..] == old(buf[..])[to % n := c];
      UpdateAt(old(buf[..]), to, c, cons);
    }

    /** Moves the queue to a ring of `size` entries. The device has ended the old ring with
        a RESIZE marker, which disappears; what was pending before it stays pending, in
        order, one position later. Without a marker the copy is given up. */
    method ResizeCopyCqes(size: nat) returns (ok: bool)
      requires Valid() && 0 < size
      requires MarkerAt(hist[cons..]) < |hist[cons..]| ==> MarkerAt(hist[cons..]) <= size
      modifies this`cons, this`prod, this`lz, this`hist, this`info, this`buf, buf
      ensures Valid() && (ok <==> old(MarkerAt(hist[cons..]) < |hist[cons..]|))
      ensures ok ==> fresh(buf) && buf.Length == size && cons == old(cons) + 1
      ensures ok ==> hist[cons..] == old(hist[cons..])[..old(MarkerAt(hist[cons..]))]
      ensures !ok ==> buf == old(buf) && cons == old(cons) && hist == old(hist)
    {
      hide Inv, Open, Strip, MarkerAt, PlainAt, Copied, Swept;
      var _ := ExpandPending();
      AllPlain(e, buf[..], cons, hist, info);
      var empty := Cqe(OpOwn(INVALID, 0, false, false), 0, 0, 0, 0, 0, 0, []);
      var dst := new Cqe[size](_ => empty);
      var m;
      ok, m := CopyPending(dst);
      if ok {
        CopiedBounds(dst[..], cons, m, hist);
        SliceOf(hist, cons, m);
        SwitchTo(dst, m);
      }
    }

    /** Continues on the ring that the entries before position `m` were copied to. */
    method SwitchTo(dst: array<Cqe>, m: nat)
      requires cons <= m < |hist| == |info| && m <= cons + dst.Length && 0 < dst.Length && lz.left == 0
      requires Copied(dst[..], cons, m, hist) && forall p :: cons <= p <= m ==> info[p].Plain?
      modifies this`cons, this`prod, this`hist, this`info, this`buf
      ensures Valid() && buf == dst && cons == old(cons) + 1 && hist[cons..] == old(hist[cons..m])
    {
      hide Inv, Open, Copied;
      ghost var was := hist;
      hist, info := was[..cons + 1] + was[cons..m], info[..m + 1];
      CopiedInv(e, dst[..], cons, m, was, hist, info);
      buf := dst;
      cons, prod := cons + 1, m + 1;
      NothingOpen(e, buf[..], cons, lz, chunk, info);
    }

    /** Copies the pending entries up to the marker; returns the marker's position. */
    method CopyPending(dst: array<Cqe>) returns (ok: bool, m: nat)
      requires Valid() && lz.left == 0 && 0 < dst.Length && dst != buf
      requires forall p :: cons <= p < |hist| ==> PlainAt(buf[..], p, hist[p])
      requires MarkerAt(hist[cons..]) < |hist[cons..]| ==> MarkerAt(hist[cons..]) <= dst.Length
      requires forall i :: 0 <= i < dst.Length ==> dst[i].op.opcode == INVALID
      modifies dst
      ensures ok <==> MarkerAt(hist[cons..]) < |hist[cons..]|
      ensures ok ==> m == cons + MarkerAt(hist[cons..]) && Copied(dst[..], cons, m, hist)
    {
      hide Inv, Open, Strip, MarkerAt, PlainAt, Copied, IsHw, Lap;
      ghost var mk, b, h := cons + MarkerAt(hist[cons..]), buf[..], hist;
      var n := buf.Length;
      var i := cons;
      MarkerLook(e, b, cons, h, info, i);
      NothingCopied(dst[..], cons, h);
      if IsHw(buf[i % n], i, n) { return false, i; }
      while buf[i % n].op.opcode != RESIZE_CQ
        invariant cons <= i < cons + n && !IsHw(b[i % n], i, n) && buf[..] == b
        invariant mk < |h| ==> i <= mk && Copied(dst[..], cons, i, h)
        decreases cons + n - i
      {
        MarkerLook(e, b, cons, h, info, i);
        CopyOne(dst, i, buf[i % n], mk, h);
        i := i + 1;
        if i == cons + n {
          StartAgain(cons, n);
        } else {
          MarkerLook(e, b, cons, h, info, i);
          SlotInjective(n, cons, i);
        }
        if IsHw(buf[i % n], i, n) { return false, i; }
        if i % n == cons % n { return false, i; }
      }
      MarkerLook(e, b, cons, h, info, i);
      ok, m := true, i;
    }

    /** Copies one entry to the next position of the new ring, with the new ring's owner bit. */
    method CopyOne(dst: array<Cqe>, i: nat, c: Cqe, ghost mk: nat, ghost h: seq<Cqe>)
      requires 0 < dst.Length && cons <= i
      requires mk < |h| ==> i < mk <= cons + dst.Length && Copied(dst[..], cons, i, h)
      requires i < |h| ==> Strip(c) == h[i] && c.op.opcode != INVALID && c.op.format != COMPRESSED
      modifies dst
      ensures mk < |h| ==> Copied(dst[..], cons, i + 1, h)
    {
      hide Copied;
      ghost var before := dst[..];
      var c' := c.(op := c.op.(owner := Lap(i + 1, dst.Length)));
      dst[(i + 1) % dst.Length] := c';
      assert dst[..] == before[(i + 1) % dst.Length := c'];
      if mk < |h| { CopiedStep(before, cons, i, h, c'); }
    }
  }

  lemma CopiedBounds(d: seq<Cqe>, cons: nat, i: nat, hist: seq<Cqe>)
    requires Copied(d, cons, i, hist)
    ensures cons <= i < |hist| && i <= cons + |d|
  {
  }

  lemma NothingCopied(d: seq<Cqe>, cons: nat, hist: seq<Cqe>)
    requires 0 < |d| && forall i :: 0 <= i < |d| ==> d[i].op.opcode == INVALID
    ensures cons < |hist| ==> Copied(d, cons, cons, hist)
  {
  }

  lemma SliceOf<T>(s: seq<T>, i: nat, j: nat)
    requires i <= j <= |s|
    ensures s[i..][..j - i] == s[i..j]
  {
  }

  lemma NothingOpen(e: Env, b: seq<Cqe>, cons: nat, lz: Lazy, chunk: nat, info: seq<Info>)
    requires 0 < |b| && lz.left == 0
    ensures Open(e, b, cons, lz, chunk, info)
  {
  }

  /** The owner bit says that the device has the entry. */
  predicate IsHw(c: Cqe, p: nat, n: nat)
    requires n > 0
  {
    c.op.owner != Lap(p, n)
  }

  lemma StartAgain(cons: nat, n: nat)
    requires n > 0
    ensures (cons + n) % n == cons % n
  {
    DivUnique(cons + n, n, cons / n + 1, cons % n);
  }

  /** What the copy loop sees at position `i`: a pending entry as it is, and behind the pending ones no marker. */
  lemma MarkerLook(e: Env, b: seq<Cqe>, cons: nat, hist: seq<Cqe>, info: seq<Info>, i: nat)
    requires Inv(e, b, cons, 0, hist, info) && cons <= i < cons + |b|
    requires forall p :: cons <= p < |hist| ==> PlainAt(b, p, hist[p])
    ensures var c, mk := b[i % |b|], cons + MarkerAt(hist[cons..]);
      && (i < |hist| ==> Strip(c) == hist[i] && c.op.opcode != INVALID && c.op.format != COMPRESSED && !IsHw(c, i, |b|))
      && (mk < |hist| && i <= mk ==> (c.op.opcode == RESIZE_CQ <==> i == mk))
      && (mk == |hist| && !IsHw(c, i, |b|) ==> c.op.opcode != RESIZE_CQ)
  {
    hide MarkerAt, Lap;
    AtSlot(b, i);
    var s := hist[cons..];
    assert forall p :: 0 <= p < |s| ==> s[p] == hist[cons + p];
    if i < |hist| {
      assert PlainAt(b, i, hist[i]);
      assert s[i - cons] == hist[i];
    } else {
      assert !SwOwned(b, i);
    }
  }

  /** The two ways of decompressing agree: after polling `j` entries of a session and
      expanding the rest in place, the polled completions and the ones now in the ring are
      together the session's expansion, whatever `j` is. */
  method LazyThenEager(cq: CompletionQueue, j: nat, ghost t: Cqe, ghost ms: seq<Mini>) returns (got: seq<Cqe>)
    requires cq.Valid() && cq.lz.left == 0 && cq.cons < |cq.hist|
    requires cq.info[cq.cons] == Member(cq.cons, t, ms) && j <= |ms|
    modifies cq, cq.buf
    ensures cq.Valid() && cq.buf == old(cq.buf) && cq.cons == old(cq.cons) + j
    ensures StripAll(got) == Expansion(cq.e.MpRq(t), t, ms)[..j]
    ensures forall i :: j <= i < |ms| ==>
      PlainAt(cq.buf[..], old(cq.cons) + i, Expansion(cq.e.MpRq(t), t, ms)[i])
  {
    hide Inv, Open, Strip, PlainAt, Expansion, Env.MpRq;
    ghost var s, h := cq.cons, cq.hist;
    SessionMeaning(cq.e, cq.buf[..], s, h, cq.info, t, ms);
    got := PollMany(cq, j);
    var _ := cq.ExpandPending();
    AllPlain(cq.e, cq.buf[..], cq.cons, h, cq.info);
  }

  method PollMany(cq: CompletionQueue, n: nat) returns (got: seq<Cqe>)
    requires cq.Valid() && cq.cons + n <= |cq.hist|
    modifies cq`cons, cq`lz, cq`chunk, cq.buf
    ensures cq.Valid() && cq.cons == old(cq.cons) + n
    ensures StripAll(got) == cq.hist[old(cq.cons)..][..n]
  {
    hide Inv, Open, Strip;
    ghost var s := cq.cons;
    got := [];
    for k := 0 to n
      invariant cq.Valid() && cq.cons == s + k
      invariant |got| == k && forall i :: 0 <= i < k ==> Strip(got[i]) == cq.hist[s + i]
    {
      var r := cq.Poll();
      got := got + [r.value];
    }
  }

  /** Software polls exactly what the device packed: the device compresses `items` into a session, and that many polls
      give the completion of each, in order, with its own counter, opcode or hash, and byte count. */
  method PollPacked(cq: CompletionQueue, t: Cqe, images: seq<Cqe>, items: seq<Item>) returns (got: seq<Cqe>)
    requires cq.Valid() && |cq.hist| == cq.cons && 2 <= |items| < 0x1_0000 && |items| <= cq.buf.Length
    requires t.op.opcode != INVALID && t.op.format == COMPRESSED && t.byteCnt == |items| && t.wqeCounter < 0x1_0000
    requires AllPackable(items, IsRequestor(t.op.opcode), cq.e.MpRq(t))
    requires |images| == (|items| + 7) / 8
    requires forall k: nat :: k < |images| ==>
      HoldsChunk(cq.e.Minis(images[k]), PackedAll(items, IsRequestor(t.op.opcode), cq.e.MpRq(t)), k)
    modifies cq, cq.buf
    ensures cq.Valid() && cq.cons == |cq.hist|
    ensures StripAll(got) == Originals(t, items, IsRequestor(t.op.opcode), cq.e.MpRq(t))
  {
    ExpandsPacked(cq.e.MpRq(t), t, items);
    hide Inv, Open, Env.MpRq, IsRequestor, HoldsChunk, AllPackable, Expansion, Originals, StripAll;
    ghost var ms := PackedAll(items, IsRequestor(t.op.opcode), cq.e.MpRq(t));
    hide PackedAll;
    cq.DeviceSession(t, images, ms);
    got := PollMany(cq, |items|);
  }

  lemma SessionMeaning(e: Env, b: seq<Cqe>, s: nat, hist: seq<Cqe>, info: seq<Info>, t: Cqe, ms: seq<Mini>)
    requires Inv(e, b, s, 0, hist, info) && s < |hist| && info[s] == Member(s, t, ms)
    ensures s + |ms| <= |hist|
    ensures forall i :: 0 <= i < |ms| ==> hist[s + i] == Expansion(e.MpRq(t), t, ms)[i]
  {
    assert WellFormed(info, hist, e, |b|, s);
    forall i | 0 <= i < |ms|
      ensures hist[s + i] == Expansion(e.MpRq(t), t, ms)[i]
    {
      assert WellFormed(info, hist, e, |b|, s + i) && info[s + i] == info[s];
    }
  }

  /** What can happen to a queue: the device writes, software polls, removes a resource's entries, or moves to
      another ring. */
  datatype Event =
    | WritePlain(c: Cqe)
    | WriteSession(title: Cqe, images: seq<Cqe>, ms: seq<Mini>)
    | PollOnce
    | CleanOf(rsn: nat, hasSrq: bool)
    | Resize(size: nat)

  /** The queue as its user sees it: what is pending, and how large the ring is. */
  datatype View = View(pending: seq<Cqe>, size: nat)

  /** What a run shows: the completions polled and the receive WQEs given back. */
  datatype Play = Play(view: View, got: seq<Cqe>, freed: seq<nat>)

  /** The device writes only entries in the formats above, and only while the ring has room. */
  predicate Writable(e: Env, room: int, ev: Event) {
    match ev
    case WritePlain(c) => 0 < room && c.op.opcode != INVALID && c.op.format != COMPRESSED
    case WriteSession(t, images, ms) =>
      && 2 <= |ms| < 0x1_0000 && |ms| <= room
      && t.op.opcode != INVALID && t.op.format == COMPRESSED && t.byteCnt == |ms|
      && |images| == (|ms| + 7) / 8
      && forall k :: 0 <= k < |images| ==> HoldsChunk(e.Minis(images[k]), ms, k)
    case _ => false
  }

  /** The completions that an event adds. */
  ghost function Written(e: Env, v: View, ev: Event): seq<Cqe> {
    if !Writable(e, v.size - |v.pending|, ev) then [] else
      match ev
      case WritePlain(c) => [Strip(c)]
      case WriteSession(t, _, ms) => Expansion(e.MpRq(t), t, ms)
      case _ => []
  }

  /** One event on the view. An event that is not possible when its turn comes is passed over; a resize is possible if
      what is pending, apart from the marker, fits the new ring. */
  ghost function After(e: Env, v: View, ev: Event): View
    requires v.size > 0
  {
    match ev
    case WritePlain(_) => v.(pending := v.pending + Written(e, v, ev))
    case WriteSession(_, _, _) => v.(pending := v.pending + Written(e, v, ev))
    case PollOnce => if v.pending == [] then v else v.(pending := v.pending[1..])
    case CleanOf(rsn, _) => v.(pending := Cleaned(e, v.pending, rsn, v.size))
    case Resize(n) =>
      var k := MarkerAt(v.pending);
      if 0 < n && |v.pending| <= n + 1 && k < |v.pending| then View(v.pending[..k], n) else v
  }

  ghost function Polled(v: View, ev: Event): seq<Cqe> {
    if ev.PollOnce? && v.pending != [] then [v.pending[0]] else []
  }

  ghost function GivenBack(e: Env, v: View, ev: Event): seq<nat>
    requires v.size > 0
  {
    if ev.CleanOf? && ev.hasSrq then Freed(e, v.pending[..Swept(|v.pending|, v.size)], ev.rsn) else []
  }

  /** A whole script on the view. */
  ghost function Played(e: Env, v: View, script: seq<Event>): (t: Play)
    requires v.size > 0
    ensures t.view.size > 0
  {
    if script == [] then Play(v, [], []) else
      var t, ev := Played(e, v, script[..|script| - 1]), script[|script| - 1];
      Play(After(e, t.view, ev), t.got + Polled(t.view, ev), t.freed + GivenBack(e, t.view, ev))
  }

  lemma NextEvent(e: Env, v: View, script: seq<Event>, i: nat)
    requires i < |script| && v.size > 0
    ensures var t := Played(e, v, script[..i]);
      Played(e, v, script[..i + 1]) ==
      Play(After(e, t.view, script[i]), t.got + Polled(t.view, script[i]), t.freed + GivenBack(e, t.view, script[i]))
  {
    assert script[..i + 1][..i] == script[..i];
  }

  /** Everything the device writes in a script. */
  ghost function WrittenAll(e: Env, v: View, script: seq<Event>): seq<Cqe>
    requires v.size > 0
  {
    if script == [] then [] else
      WrittenAll(e, v, script[..|script| - 1])
      + Written(e, Played(e, v, script[..|script| - 1]).view, script[|script| - 1])
  }

  /** In every interleaving of device writes and polls nothing is lost, doubled, invented or reordered. */
  lemma {:induction false} Conserved(e: Env, v: View, script: seq<Event>)
    requires v.size > 0 && forall i :: 0 <= i < |script| ==> !script[i].CleanOf? && !script[i].Resize?
    ensures var t := Played(e, v, script); v.pending + WrittenAll(e, v, script) == t.got + t.view.pending
  {
    if script != [] {
      hide Writable, Expansion, Strip, MarkerAt, Cleaned, Freed;
      var before, ev := script[..|script| - 1], script[|script| - 1];
      var t := Played(e, v, before);
      Conserved(e, v, before);
      OneEvent(e, t.view, ev);
      Conserve(v.pending, WrittenAll(e, v, before), t.got, t.view.pending, Written(e, t.view, ev), Polled(t.view, ev),
               After(e, t.view, ev).pending);
    }
  }

  lemma OneEvent(e: Env, v: View, ev: Event)
    requires v.size > 0 && !ev.CleanOf? && !ev.Resize?
    ensures v.pending + Written(e, v, ev) == Polled(v, ev) + After(e, v, ev).pending
  {
    hide Writable, Expansion, Strip, MarkerAt;
  }

  /** The completions that an event removes: those of the resource that is cleaned, and what a resize does not copy. */
  ghost function Dropped(e: Env, v: View, ev: Event): seq<Cqe>
    requires v.size > 0
  {
    match ev
    case CleanOf(rsn, _) => Gone(e, v.pending[..Swept(|v.pending|, v.size)], rsn)
    case Resize(n) =>
      var k := MarkerAt(v.pending);
      if 0 < n && |v.pending| <= n + 1 && k < |v.pending| then v.pending[k..] else []
    case _ => []
  }

  ghost function DroppedAll(e: Env, v: View, script: seq<Event>): seq<Cqe>
    requires v.size > 0
  {
    if script == [] then [] else
      DroppedAll(e, v, script[..|script| - 1])
      + Dropped(e, Played(e, v, script[..|script| - 1]).view, script[|script| - 1])
  }

  /** In every script, of cleans and resizes too: what software has polled and what is pending are completions that
      were pending or written, in that order and each at most once, and the others were removed. */
  lemma {:induction false} SeenOnceInOrder(e: Env, v: View, script: seq<Event>)
    requires v.size > 0
    ensures var t, all := Played(e, v, script), v.pending + WrittenAll(e, v, script);
      && Within(t.got + t.view.pending, all)
      && multiset(t.got + t.view.pending) + multiset(DroppedAll(e, v, script)) == multiset(all)
  {
    if script == [] {
      assert [] + v.pending == v.pending && v.pending + [] == v.pending;
      WithinSelf(v.pending);
    } else {
      hide *;
      var before, ev := script[..|script| - 1], script[|script| - 1];
      var t := Played(e, v, before);
      SeenOnceInOrder(e, v, before);
      EventKeeps(e, t.view, ev);
      LastPlayed(e, v, script);
      Keeps(v.pending, WrittenAll(e, v, before), t.got, t.view.pending, Written(e, t.view, ev), Polled(t.view, ev),
            After(e, t.view, ev).pending, DroppedAll(e, v, before), Dropped(e, t.view, ev));
    }
  }

  lemma LastPlayed(e: Env, v: View, script: seq<Event>)
    requires v.size > 0 && script != []
    ensures var before, ev := script[..|script| - 1], script[|script| - 1];
      var t := Played(e, v, before);
      && Played(e, v, script).view == After(e, t.view, ev) && Played(e, v, script).got == t.got + Polled(t.view, ev)
      && WrittenAll(e, v, script) == WrittenAll(e, v, before) + Written(e, t.view, ev)
      && DroppedAll(e, v, script) == DroppedAll(e, v, before) + Dropped(e, t.view, ev)
  {
    hide After, Polled, Written, Dropped, GivenBack;
  }

  lemma EventKeeps(e: Env, v: View, ev: Event)
    requires v.size > 0
    ensures Within(Polled(v, ev) + After(e, v, ev).pending, v.pending + Written(e, v, ev))
    ensures multiset(Polled(v, ev) + After(e, v, ev).pending) + multiset(Dropped(e, v, ev))
      == multiset(v.pending + Written(e, v, ev))
  {
    hide Within;
    match ev
    case CleanOf(rsn, _) => CleanKeeps(e, v, ev);
    case Resize(_) => ResizeKeeps(e, v, ev);
    case _ =>
      OneEvent(e, v, ev);
      WithinSelf(v.pending + Written(e, v, ev));
  }

  lemma CleanKeeps(e: Env, v: View, ev: Event)
    requires v.size > 0 && ev.CleanOf?
    ensures Within(Polled(v, ev) + After(e, v, ev).pending, v.pending + Written(e, v, ev))
    ensures multiset(Polled(v, ev) + After(e, v, ev).pending) + multiset(Dropped(e, v, ev))
      == multiset(v.pending + Written(e, v, ev))
  {
    CleanMeans(e, v, ev);
    hide *;
    var k := Swept(|v.pending|, v.size);
    SweptKeeps(e, v.pending, k, ev.rsn);
    NothingAround(v.pending);
    NothingAround(After(e, v, ev).pending);
  }

  lemma SweptKeeps(e: Env, s: seq<Cqe>, k: nat, rsn: nat)
    requires k <= |s|
    ensures Within(Keep(e, s[..k], rsn) + s[k..], s)
    ensures multiset(Keep(e, s[..k], rsn) + s[k..]) + multiset(Gone(e, s[..k], rsn)) == multiset(s)
  {
    hide *;
    var a, b := s[..k], s[k..];
    assert s == a + b;
    WithinSelf(b);
    KeepWithin(e, a, rsn);
    WithinConcat(Keep(e, a, rsn), a, b, b);
    KeepAndGone(e, a, rsn);
    BothWith(Keep(e, a, rsn), Gone(e, a, rsn), a, b);
  }

  lemma CleanMeans(e: Env, v: View, ev: Event)
    requires v.size > 0 && ev.CleanOf?
    ensures var k := Swept(|v.pending|, v.size);
      && k <= |v.pending| && Polled(v, ev) == [] && Written(e, v, ev) == []
      && After(e, v, ev).pending == Keep(e, v.pending[..k], ev.rsn) + v.pending[k..]
      && Dropped(e, v, ev) == Gone(e, v.pending[..k], ev.rsn)
  {
    hide Keep, Gone;
  }

  lemma BothWith<T>(kept: seq<T>, gone: seq<T>, a: seq<T>, b: seq<T>)
    requires multiset(kept) + multiset(gone) == multiset(a)
    ensures multiset(kept + b) + multiset(gone) == multiset(a + b)
  {
    assert multiset(kept + b) == multiset(kept) + multiset(b) && multiset(a + b) == multiset(a) + multiset(b);
  }

  lemma ResizeKeeps(e: Env, v: View, ev: Event)
    requires v.size > 0 && ev.Resize?
    ensures Within(Polled(v, ev) + After(e, v, ev).pending, v.pending + Written(e, v, ev))
    ensures multiset(Polled(v, ev) + After(e, v, ev).pending) + multiset(Dropped(e, v, ev))
      == multiset(v.pending + Written(e, v, ev))
  {
    ResizeMeans(e, v, ev);
    hide *;
    var p, d := After(e, v, ev).pending, Dropped(e, v, ev);
    NothingAround(v.pending);
    NothingAround(p);
    if d == [] {
      WithinSelf(v.pending);
      NothingGone(p, d);
    } else {
      PrefixKeeps(v.pending, MarkerAt(v.pending));
    }
  }

  lemma ResizeMeans(e: Env, v: View, ev: Event)
    requires v.size > 0 && ev.Resize?
    ensures var k := MarkerAt(v.pending);
      && Polled(v, ev) == [] && Written(e, v, ev) == []
      && if Dropped(e, v, ev) == [] then After(e, v, ev).pending == v.pending
         else After(e, v, ev).pending == v.pending[..k] && Dropped(e, v, ev) == v.pending[k..]
  {
    hide MarkerAt;
  }

  lemma NothingGone<T>(s: seq<T>, none: seq<T>)
    requires none == []
    ensures multiset(s) + multiset(none) == multiset(s)
  {
  }

  lemma NothingAround<T>(s: seq<T>)
    ensures [] + s == s == s + []
  {
  }

  lemma PrefixKeeps<T>(s: seq<T>, k: nat)
    requires k <= |s|
    ensures Within(s[..k], s) && multiset(s[..k]) + multiset(s[k..]) == multiset(s)
  {
    hide Within;
    assert s == s[..k] + s[k..] && s[..k] + [] == s[..k];
    WithinSelf(s[..k]);
    NoneWithin(s[k..]);
    WithinConcat(s[..k], s[..k], [], s[k..]);
  }

  lemma NoneWithin<T>(s: seq<T>)
    ensures Within([], s)
  {
  }

  lemma Keeps<T>(first: seq<T>, sent: seq<T>, got: seq<T>, before: seq<T>, m: seq<T>, g: seq<T>, after: seq<T>,
                 gone: seq<T>, now: seq<T>)
    requires Within(got + before, first + sent) && Within(g + after, before + m)
    requires multiset(got + before) + multiset(gone) == multiset(first + sent)
    requires multiset(g + after) + multiset(now) == multiset(before + m)
    ensures Within((got + g) + after, first + (sent + m))
    ensures multiset((got + g) + after) + multiset(gone + now) == multiset(first + (sent + m))
  {
    hide Within;
    KeepsOrder(first, sent, got, before, m, g, after);
    KeepsCount(first, sent, got, before, m, g, after, gone, now);
  }

  lemma KeepsOrder<T>(first: seq<T>, sent: seq<T>, got: seq<T>, before: seq<T>, m: seq<T>, g: seq<T>, after: seq<T>)
    requires Within(got + before, first + sent) && Within(g + after, before + m)
    ensures Within((got + g) + after, first + (sent + m))
  {
    hide Within;
    ConcatAssoc(got, g, after);
    ConcatAssoc(first, sent, m);
    ConcatAssoc(got, before, m);
    WithinSelf(got);
    WithinSelf(m);
    WithinConcat(got, got, g + after, before + m);
    WithinConcat(got + before, first + sent, m, m);
    WithinTrans(got + (g + after), got + (before + m), (first + sent) + m);
  }

  lemma KeepsCount<T>(first: seq<T>, sent: seq<T>, got: seq<T>, before: seq<T>, m: seq<T>, g: seq<T>, after: seq<T>,
                      gone: seq<T>, now: seq<T>)
    requires multiset(got + before) + multiset(gone) == multiset(first + sent)
    requires multiset(g + after) + multiset(now) == multiset(before + m)
    ensures multiset((got + g) + after) + multiset(gone + now) == multiset(first + (sent + m))
  {
    ConcatAssoc(got, g, after);
    ConcatAssoc(first, sent, m);
    Sums(multiset(got), multiset(before), multiset(m), multiset(g + after), multiset(gone), multiset(now),
         multiset(first + sent));
    assert multiset(got + (g + after)) == multiset(got) + multiset(g + after);
    assert multiset((first + sent) + m) == multiset(first + sent) + multiset(m);
  }

  lemma Sums<T>(got: multiset<T>, before: multiset<T>, m: multiset<T>, polled: multiset<T>, gone: multiset<T>,
                now: multiset<T>, all: multiset<T>)
    requires got + before + gone == all && polled + now == before + m
    ensures got + polled + (gone + now) == all + m
  {
    assert got + polled + (gone + now) == got + (polled + now) + gone;
    assert got + (before + m) + gone == (got + before + gone) + m;
  }

  function StripAll(s: seq<Cqe>): (r: seq<Cqe>)
    ensures |r| == |s|
  {
    seq(|s|, i requires 0 <= i < |s| => Strip(s[i]))
  }

  /** What the queue stands for. */
  ghost function Shown(cq: CompletionQueue): View
    reads cq
    requires cq.cons <= |cq.hist|
  {
    View(cq.hist[cq.cons..], cq.buf.Length)
  }

  /** One event is one event of the view. */
  method Step(cq: CompletionQueue, ev: Event) returns (got: seq<Cqe>, freed: seq<nat>)
    requires cq.Valid()
    modifies cq, cq.buf
    ensures cq.Valid() && (cq.buf == old(cq.buf) || fresh(cq.buf))
    ensures Shown(cq) == After(cq.e, old(Shown(cq)), ev)
    ensures StripAll(got) == Polled(old(Shown(cq)), ev) && freed == GivenBack(cq.e, old(Shown(cq)), ev)
  {
    hide Inv, Open, Strip, MarkerAt, Cleaned, Freed, Swept, HoldsChunk, Expansion;
    got, freed := [], [];
    assert StripAll(got) == [];
    match ev
    case WritePlain(c) =>
      if Writable(cq.e, cq.cons + cq.buf.Length - cq.prod, ev) { cq.DevicePlain(c); }
    case WriteSession(t, images, ms) =>
      if Writable(cq.e, cq.cons + cq.buf.Length - cq.prod, ev) { cq.DeviceSession(t, images, ms); }
    case PollOnce =>
      var r := cq.Poll();
      if r.Some? {
        got := [r.value];
        assert StripAll(got) == [Strip(r.value)];
        assert cq.hist[old(cq.cons)..] == [cq.hist[old(cq.cons)]] + cq.hist[cq.cons..];
      }
    case CleanOf(rsn, hasSrq) =>
      freed := cq.Clean(rsn, hasSrq);
    case Resize(n) =>
      if 0 < n && cq.prod - cq.cons <= n + 1 {
        var ok := cq.ResizeCopyCqes(n);
      }
  }

  /** Every run of device writes, polls, cleans and resizes is a run of the view. */
  method Run(cq: CompletionQueue, script: seq<Event>) returns (got: seq<Cqe>, freed: seq<nat>)
    requires cq.Valid()
    modifies cq, cq.buf
    ensures cq.Valid() && (cq.buf == old(cq.buf) || fresh(cq.buf))
    ensures Play(Shown(cq), StripAll(got), freed) == Played(cq.e, old(Shown(cq)), script)
  {
    got, freed := [], [];
    assert StripAll(got) == [];
    for i := 0 to |script|
      invariant cq.Valid() && (cq.buf == old(cq.buf) || fresh(cq.buf))
      invariant Play(Shown(cq), StripAll(got), freed) == Played(cq.e, old(Shown(cq)), script[..i])
    {
      hide *;
      NextEvent(cq.e, old(Shown(cq)), script, i);
      var g, f := Step(cq, script[i]);
      StripConcat(got, g);
      got, freed := got + g, freed + f;
    }
    assert script[..|script|] == script;
  }

  lemma Conserve<T>(first: seq<T>, sent: seq<T>, got: seq<T>, before: seq<T>, m: seq<T>, g: seq<T>, after: seq<T>)
    requires first + sent == got + before && before + m == g + after
    ensures first + (sent + m) == (got + g) + after
  {
    assert first + (sent + m) == (first + sent) + m;
    assert (got + before) + m == got + (before + m);
    assert (got + g) + after == got + (g + after);
  }

  lemma StripConcat(s: seq<Cqe>, t: seq<Cqe>)
    ensures StripAll(s + t) == StripAll(s) + StripAll(t)
  {
  }

  /** A full ring of two entries of one resource: cleaning it of that resource leaves the newer entry pending. */
  lemma FullRing(e: Env, c: Cqe, rsn: nat)
    requires c.op.opcode != INVALID && c.op.format != COMPRESSED && Matches(e, c, rsn)
    ensures Played(e, View([], 2), [WritePlain(c), WritePlain(c), CleanOf(rsn, true)]).view == View([Strip(c)], 2)
    ensures Matches(e, Strip(c), rsn)
  {
    hide Played, Strip, After, Polled, GivenBack, Matches;
    var s, v, x := [WritePlain(c), WritePlain(c), CleanOf(rsn, true)], View([], 2), Strip(c);
    StripMatches(e, c, rsn);
    NothingPlayed(e, v, s);
    NextEvent(e, v, s, 0);
    AfterPlain(e, v, c);
    assert v.pending + [x] == [x];
    NextEvent(e, v, s, 1);
    AfterPlain(e, View([x], 2), c);
    assert [x] + [x] == [x, x];
    NextEvent(e, v, s, 2);
    CleanFull(e, x, rsn);
    assert s[..3] == s;
  }

  lemma StripMatches(e: Env, c: Cqe, rsn: nat)
    ensures Matches(e, Strip(c), rsn) == Matches(e, c, rsn)
  {
  }

  lemma NothingPlayed(e: Env, v: View, script: seq<Event>)
    requires v.size > 0
    ensures Played(e, v, script[..0]) == Play(v, [], [])
  {
  }

  lemma AfterPlain(e: Env, v: View, c: Cqe)
    requires c.op.opcode != INVALID && c.op.format != COMPRESSED && |v.pending| < v.size
    ensures After(e, v, WritePlain(c)) == v.(pending := v.pending + [Strip(c)])
  {
  }

  lemma CleanFull(e: Env, x: Cqe, rsn: nat)
    requires Matches(e, x, rsn)
    ensures After(e, View([x, x], 2), CleanOf(rsn, true)) == View([x], 2)
  {
    assert [x, x][..1] == [x] && [x, x][1..] == [x] && [x][1..] == [];
    assert Keep(e, [x], rsn) == [];
  }
}
