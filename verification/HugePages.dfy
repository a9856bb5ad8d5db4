/** Buffers carved out of huge-page regions, each with its own chunk bitmap. */
module HugePages {
  import opened Common
  import opened Masks
  import opened Words
  import opened RangeBitmaps

  const CHUNK: nat := 32768
  const REGION_CHUNKS: nat := 64    // a region is a multiple of 2 MB

  datatype Buf = Buf(hmem: Bitmap, base: nat, nchunk: nat)

  function Chunks(size: nat): nat { (size + CHUNK - 1) / CHUNK }

  /** The size, in chunks, of a region made for a buffer of `size` bytes. */
  function RegionSize(size: nat): nat { (Chunks(size) + REGION_CHUNKS - 1) / REGION_CHUNKS * REGION_CHUNKS }

  ghost predicate Owns(live: map<nat, Buf>, id: nat, r: Bitmap, i: nat) {
    id in live && live[id].hmem == r && live[id].base <= i < live[id].base + live[id].nchunk
  }

  ghost predicate Owned(live: map<nat, Buf>, r: Bitmap, i: nat) {
    exists id: nat :: Owns(live, id, r, i)
  }

  /** A region's set bits are the chunks of its live buffers. */
  ghost predicate Accounts(t: seq<Word>, n: nat, live: map<nat, Buf>, r: Bitmap) {
    forall i: nat :: i < n ==> Bit(t, W, i) == Owned(live, r, i)
  }

  /** No chunk belongs to two buffers. */
  ghost predicate Disjoint(live: map<nat, Buf>) {
    && (forall a: nat :: a in live ==> live[a].nchunk > 0)
    && forall a: nat, b: nat :: a in live && b in live && a != b ==> Apart(live[a], live[b])
  }

  ghost predicate Apart(x: Buf, y: Buf) {
    x.hmem != y.hmem || x.base + x.nchunk <= y.base || y.base + y.nchunk <= x.base
  }

  lemma AddBuf(t: seq<Word>, t': seq<Word>, n: nat, live: map<nat, Buf>, id: nat, b: Buf)
    requires Accounts(t, n, live, b.hmem) && id !in live && Disjoint(live) && b.base + b.nchunk <= n && b.nchunk > 0
    requires Ranged(t, t', b.base, b.base + b.nchunk, true)
    requires forall i: nat :: b.base <= i < b.base + b.nchunk ==> !Bit(t, W, i)
    ensures Accounts(t', n, live[id := b], b.hmem) && Disjoint(live[id := b])
  {
    hide Bit;
    var live' := live[id := b];
    forall i: nat | i < n
      ensures Bit(t', W, i) == Owned(live', b.hmem, i)
    {
      if b.base <= i < b.base + b.nchunk {
        assert Owns(live', id, b.hmem, i);
      } else if Owned(live, b.hmem, i) {
        var a: nat :| Owns(live, a, b.hmem, i);
        assert Owns(live', a, b.hmem, i);
      } else {
        assert forall a: nat :: Owns(live', a, b.hmem, i) ==> Owns(live, a, b.hmem, i);
      }
    }
    forall x: nat | x in live
      ensures Apart(live[x], b) && Apart(b, live[x])
    {
      var i: nat := if live[x].base < b.base then b.base else live[x].base;
      assert Owns(live, x, b.hmem, i) ==> Owned(live, b.hmem, i);
      assert !Apart(live[x], b) ==> Owns(live, x, b.hmem, i);
    }
  }

  lemma DropBuf(t: seq<Word>, t': seq<Word>, n: nat, live: map<nat, Buf>, id: nat)
    requires id in live && Accounts(t, n, live, live[id].hmem) && Disjoint(live)
    requires Ranged(t, t', live[id].base, live[id].base + live[id].nchunk, false)
    ensures Accounts(t', n, live - {id}, live[id].hmem) && Disjoint(live - {id})
  {
    hide Bit;
    var b, live' := live[id], live - {id};
    forall i: nat | i < n
      ensures Bit(t', W, i) == Owned(live', b.hmem, i)
    {
      if Owned(live', b.hmem, i) {
        var a: nat :| Owns(live', a, b.hmem, i);
        assert Owns(live, a, b.hmem, i);
        assert Apart(live[a], b);
      } else if Owned(live, b.hmem, i) {
        var a: nat :| Owns(live, a, b.hmem, i);
        assert a != id ==> Owns(live', a, b.hmem, i);
      }
    }
  }

  /** Other regions do not notice. */
  lemma OtherRegion(t: seq<Word>, n: nat, live: map<nat, Buf>, live': map<nat, Buf>, r: Bitmap)
    requires Accounts(t, n, live, r)
    requires forall id: nat, i: nat :: Owns(live, id, r, i) == Owns(live', id, r, i)
    ensures Accounts(t, n, live', r)
  {
    hide Bit;
    assert forall i: nat :: Owned(live, r, i) == Owned(live', r, i);
  }

  /** Every region is in order, holds exactly its live buffers, and holds at least one. */
  class Allocator {
    var list: seq<Bitmap>
    ghost var live: map<nat, Buf>

    constructor ()
      ensures Valid() && list == [] && live == map[]
    {
      list, live := [], map[];
    }

    ghost predicate Valid()
      reads this, list
    {
      ValidBut(null)
    }

    /** In order, except that `x` may hold no buffer and have another top. */
    ghost predicate ValidBut(x: Bitmap?)
      reads this, list
    {
      && NoDups(list)
      && (forall r :: r in list ==> Booked(r, live) && (r == x || (r.top == 0 && Used(r, live))))
      && (forall id: nat :: id in live ==> Placed(live[id]))
      && Disjoint(live)
    }

    ghost predicate Placed(b: Buf)
      reads this
    {
      b.hmem in list && b.base + b.nchunk <= b.hmem.max
    }

    /** One region: a range in it, if it has a suitable one. */
    method AllocIn(k: nat, nchunk: nat, ghost id: nat) returns (obj: int)
      requires Valid() && k < |list| && nchunk > 0 && id !in live && list[k].avail != 0 && Steady(list[k], nchunk)
      modifies this`live, list[k]
      ensures Valid() && list == old(list)
      ensures obj == -1 <==> old(NoneSuitable(list[k].table, 0, list[k].max, list[k].max, nchunk, 1))
      ensures obj == -1 ==> live == old(live) && list[k].table == old(list[k].table)
      ensures obj == -1 ==> list[k].avail == old(list[k].avail) && list[k].last == old(list[k].last)
      ensures obj != -1 ==> obj >= 0 && live == old(live)[id := Buf(list[k], obj, nchunk)]
    {
      hide Bit, Clears, PowerOfTwo, And, Or, Suitable, Disjoint, Accounts, Used, Ranged, NoneSuitable;
      var r := list[k];
      ghost var t := r.table;
      assert Booked(r, live) && r.top == 0;
      MaskZero(r.max);
      ghost var s;
      obj, s := r.AllocRange(nchunk, 1);
      if obj != -1 {
        SuitableClear(t, s, r.max, nchunk, 1);
        OrZero(s);
        ghost var b := Buf(r, s, nchunk);
        AddBuf(t, r.table, r.max, live, id, b);
        ghost var live' := live[id := b];
        forall q | q in list
          ensures Booked(q, live') && q.top == 0 && Used(q, live')
        {
          Grown(q, live, id, b);
        }
        live := live';
      }
    }

    /** The first region of the list with a suitable range. */
    method Search(nchunk: nat, ghost id: nat) returns (k: nat, obj: int)
      requires Valid() && nchunk > 0 && id !in live && forall r :: r in list ==> Steady(r, nchunk)
      modifies this`live, list
      ensures Valid() && list == old(list) && k <= |list|
      ensures forall j :: 0 <= j < k ==> old(NoRange(list[j], nchunk))
      ensures k == |list| ==> live == old(live)
      ensures k < |list| ==>
        obj >= 0 && live == old(live)[id := Buf(list[k], obj, nchunk)] && !old(NoRange(list[k], nchunk))
    {
      hide Bit, Clears, PowerOfTwo, And, Or, Suitable, Disjoint, Accounts, Used, Owned;
      k := 0;
      while k < |list|
        invariant Valid() && list == old(list) && live == old(live) && k <= |list|
        invariant forall j :: 0 <= j < k ==> old(NoRange(list[j], nchunk))
        invariant forall j :: 0 <= j < |list| ==> list[j].table == old(list[j].table)
        invariant forall j :: 0 <= j < |list| ==>
          list[j].avail == old(list[j].avail) && list[j].last == old(list[j].last)
      {
        assert Booked(list[k], live);
        assert old(Steady(list[k], nchunk));
        NoneLeft(list[k].table, list[k].max, nchunk);
        if list[k].avail != 0 {
          obj := AllocIn(k, nchunk, id);
          if obj != -1 { return; }
        }
        k := k + 1;
      }
      obj := -1;
    }

    /** A buffer of `size` bytes: in the first region with room for it, else in a new region. `shmOk`: a new region
        can be had; `forkOk`: its pages can be excluded from forks. */
    method AllocHugeBuf(size: nat, shmOk: bool, forkOk: bool, ghost id: nat) returns (r: Option<Buf>)
      requires Valid() && size > 0 && id !in live
      requires forall r :: r in list ==> Steady(r, Chunks(size))
      requires !forkOk ==> forall r :: r in list ==> PowerOfTwo(r.max) || NoRange(r, Chunks(size))
      modifies this, list
      ensures Valid()
      ensures r.Some? ==> live == old(live)[id := r.value] && r.value.nchunk == Chunks(size)
      ensures r.None? ==> live == old(live)
      ensures r.Some? <==> forkOk && (shmOk || exists j :: 0 <= j < old(|list|) && !old(NoRange(list[j], Chunks(size))))
      ensures forall q :: q in list ==> q in old(list) || (fresh(q) && q.max == RegionSize(size))
      ensures r.Some? ==>
        (r.value.hmem in old(list) <==> exists j :: 0 <= j < old(|list|) && !old(NoRange(list[j], Chunks(size))))
      ensures r.Some? && r.value.hmem in old(list) ==> old(FirstWithRoom(list, r.value.hmem, Chunks(size)))
      ensures r.Some? && r.value.hmem !in old(list) ==> fresh(r.value.hmem) && r.value.hmem.max == RegionSize(size)
    {
      hide Bit, Clears, PowerOfTwo, And, Or, Suitable, NoneSuitable, NoRange, NoDups, Disjoint, Booked, Used;
      hide Steady, Freeable;
      var nchunk := Chunks(size);
      var k, obj := Search(nchunk, id);
      var hmem;
      if k == |list| {
        if !shmOk { return None; }
        assert forall x: nat :: x in live ==> Placed(live[x]) && live[x].hmem in list;
        hmem, obj := AddRegion(size, id);
        UnusedHolds(hmem, old(live));
      } else {
        hmem := list[k];
        assert hmem in old(list) && !old(NoRange(list[k], nchunk)) && old(FirstWithRoom(list, hmem, nchunk));
      }
      hide FirstWithRoom;
      if !forkOk {
        assert Placed(live[id]);
        FreshFreeable(old(live), id, Buf(hmem, obj, nchunk));
        FreeHugeBuf(Buf(hmem, obj, nchunk), id);
        assert live == old(live);
        return None;
      }
      r := Some(Buf(hmem, obj, nchunk));
    }

    /** A new region always satisfies the request it was made for. */
    method AddRegion(size: nat, ghost id: nat) returns (hmem: Bitmap, obj: nat)
      requires Valid() && size > 0 && id !in live
      modifies this
      ensures Valid() && fresh(hmem) && obj == 0 && live == old(live)[id := Buf(hmem, 0, Chunks(size))]
      ensures hmem.max == RegionSize(size)
      ensures list == if Chunks(size) < RegionSize(size) then [hmem] + old(list) else old(list) + [hmem]
    {
      hide Bit, Clears, PowerOfTwo, And, Or, Suitable, Disjoint, Accounts, Used, Owned, NoDups, Ranged;
      ghost var t;
      hmem, obj, t := NewRegion(size);
      ghost var b := Buf(hmem, 0, Chunks(size));
      EmptyAccount(t, hmem.max, live, hmem);
      AddBuf(t, hmem.table, hmem.max, live, id, b);
      ghost var live' := live[id := b];
      forall q | q in list
        ensures Booked(q, live') && q.top == 0 && Used(q, live')
      {
        Grown(q, live, id, b);
      }
      Grown(hmem, live, id, b);
      live := live';
      OneMore(list, hmem);
      if hmem.avail != 0 {
        list := [hmem] + list;
      } else {
        list := list + [hmem];
      }
    }

    /** Clears a buffer's chunks. */
    method Release(buf: Buf, ghost id: nat)
      requires Valid() && id in live && live[id] == buf && Freeable(live, id)
      modifies this`live, buf.hmem
      ensures ValidBut(buf.hmem) && live == old(live) - {id} && buf.hmem in list
      ensures Used(buf.hmem, live) ==> buf.hmem.top == 0
      ensures buf.hmem.avail == buf.hmem.max <==> !Used(buf.hmem, live)
    {
      hide Bit, Clears, PowerOfTwo, And, Or, Suitable, Disjoint, Accounts, Owned, Used, Ranged;
      var r := buf.hmem;
      assert Placed(buf) && Booked(r, live) && r.top == 0;
      HeldChunks(r.table, r.max, live, id);
      MaskZero(r.max);
      ghost var t := r.table;
      r.FreeRange(buf.base, buf.nchunk);
      DropBuf(t, r.table, r.max, live, id);
      ghost var live' := live - {id};
      forall q | q in list && q != r
        ensures Booked(q, live') && q.top == 0 && Used(q, live')
      {
        Shrunk(q, live, id);
      }
      live := live';
      EmptyMeansUnused(r, live);
    }

    /** Takes a region without buffers off the list. */
    method Unlink(r: Bitmap)
      requires ValidBut(r) && r in list && !Used(r, live)
      modifies this`list
      ensures Valid() && forall x :: x in list <==> x in old(list) && x != r
    {
      hide Booked, Disjoint, NoDups, Without, Used;
      var k :| 0 <= k < |list| && list[k] == r;
      WithoutOne(list, k);
      UnusedHolds(r, live);
      assert forall id: nat :: id in live ==> Placed(live[id]) && live[id].hmem != r;
      list := Without(list, k);
    }

    /** Frees a buffer, and its region with the last one. */
    method FreeHugeBuf(buf: Buf, ghost id: nat)
      requires Valid() && id in live && live[id] == buf && Freeable(live, id)
      modifies this, buf.hmem
      ensures Valid() && live == old(live) - {id}
      ensures forall r :: r in list <==> r in old(list) && Used(r, live)
    {
      hide Booked, Disjoint, Used, Freeable;
      Release(buf, id);
      if buf.hmem.avail == buf.hmem.max {
        Unlink(buf.hmem);
      }
    }
  }

  /** A buffer just made can be freed if its region is a power of two, or is its own from the start. */
  lemma FreshFreeable(live: map<nat, Buf>, id: nat, b: Buf)
    requires id !in live && b.base < b.hmem.max && (PowerOfTwo(b.hmem.max) || (b.base == 0 && !Used(b.hmem, live)))
    ensures Freeable(live[id := b], id)
  {
    if PowerOfTwo(b.hmem.max) { MaskKeeps(b.base, b.hmem.max); }
    assert live[id := b] - {id} == live;
  }

  lemma UnusedHolds(r: Bitmap, live: map<nat, Buf>)
    ensures !Used(r, live) <==> forall id: nat :: id in live ==> live[id].hmem != r
  {
  }

  /** A live buffer's chunks are all marked. */
  lemma HeldChunks(t: seq<Word>, n: nat, live: map<nat, Buf>, id: nat)
    requires id in live && Accounts(t, n, live, live[id].hmem) && live[id].base + live[id].nchunk <= n && Disjoint(live)
    ensures live[id].base < n && forall j: nat :: live[id].base <= j < live[id].base + live[id].nchunk ==> Bit(t, W, j)
  {
    hide Bit;
    forall j: nat | live[id].base <= j < live[id].base + live[id].nchunk
      ensures Bit(t, W, j)
    {
      assert Owns(live, id, live[id].hmem, j);
    }
  }

  /** One buffer less: the regions it was not in stay used and keep their account. */
  lemma Shrunk(r: Bitmap, live: map<nat, Buf>, id: nat)
    requires id in live && r != live[id].hmem && Used(r, live) && Accounts(r.table, r.max, live, r)
    ensures Used(r, live - {id}) && Accounts(r.table, r.max, live - {id}, r)
  {
    hide Bit;
    var x: nat :| x in live && live[x].hmem == r;
    assert x in live - {id} && (live - {id})[x].hmem == r;
    OtherRegion(r.table, r.max, live, live - {id}, r);
  }

  /** Makes a region and takes its first chunks for the buffer it is made for. */
  method NewRegion(size: nat) returns (hmem: Bitmap, obj: nat, ghost t: seq<Word>)
    requires size > 0
    ensures fresh(hmem) && hmem.Valid() && hmem.max == RegionSize(size) >= Chunks(size) > 0 && hmem.top == 0 && obj == 0
    ensures (forall i: nat :: !Bit(t, W, i)) && Ranged(t, hmem.table, 0, Chunks(size), true)
    ensures hmem.last == if Chunks(size) < RegionSize(size) then Chunks(size) else 0
    ensures hmem.avail == RegionSize(size) - Chunks(size)
  {
    hide Bit, Clears, PowerOfTwo, And, Or, Suitable, Ranged;
    var nchunk := Chunks(size);
    hmem := new Bitmap(RegionSize(size));
    t := hmem.table;
    EmptySuits(t, hmem.max, nchunk);
    var o;
    ghost var s;
    o, s := hmem.AllocRange(nchunk, 1);
    assert s == 0;
    OrZero(0);
    obj := o;
  }

  ghost predicate NoRange(r: Bitmap, nchunk: nat)
    reads r
  {
    NoneSuitable(r.table, 0, r.max, r.max, nchunk, 1)
  }

  ghost predicate FirstWithRoom(list: seq<Bitmap>, r: Bitmap, nchunk: nat)
    reads list
  {
    exists k :: 0 <= k < |list| && list[k] == r && !NoRange(r, nchunk)
                && forall j :: 0 <= j < k ==> NoRange(list[j], nchunk)
  }

  /** Without a clear bit nothing is suitable. */
  lemma NoneLeft(t: seq<Word>, n: nat, nchunk: nat)
    ensures Clears(t, W, n) == 0 ==> NoneSuitable(t, 0, n, n, nchunk, 1)
  {
    hide Bit, Clears;
    ClearsBounds(t, W, n);
  }

  lemma EmptySuits(t: seq<Word>, n: nat, nchunk: nat)
    requires 0 < nchunk <= n && forall i: nat :: !Bit(t, W, i)
    ensures Suitable(t, 0, n, nchunk, 1)
  {
  }

  lemma EmptyAccount(t: seq<Word>, n: nat, live: map<nat, Buf>, r: Bitmap)
    requires (forall i: nat :: !Bit(t, W, i)) && forall id: nat :: id in live ==> live[id].hmem != r
    ensures Accounts(t, n, live, r)
  {
    hide Bit;
  }

  /** A further buffer: regions stay used, and those it is not in keep their account. */
  lemma Grown(r: Bitmap, live: map<nat, Buf>, id: nat, b: Buf)
    requires id !in live
    ensures Used(r, live) || r == b.hmem ==> Used(r, live[id := b])
    ensures r != b.hmem && Accounts(r.table, r.max, live, r) ==> Accounts(r.table, r.max, live[id := b], r)
  {
    hide Bit;
    if Used(r, live) {
      var x: nat :| x in live && live[x].hmem == r;
      assert x in live[id := b] && live[id := b][x].hmem == r;
    }
    if r == b.hmem { assert id in live[id := b] && live[id := b][id].hmem == r; }
    if r != b.hmem && Accounts(r.table, r.max, live, r) {
      OtherRegion(r.table, r.max, live, live[id := b], r);
    }
  }

  ghost predicate Booked(r: Bitmap, live: map<nat, Buf>)
    reads r
  {
    r.Valid() && Accounts(r.table, r.max, live, r)
  }

  /** Looking for `nchunk` chunks leaves the region's top alone. */
  ghost predicate Steady(r: Bitmap, nchunk: nat)
    reads r
  {
    PowerOfTwo(r.max) || r.avail == 0 || nchunk == 1 || nchunk > r.max
    || !NoneSuitable(r.table, r.last, r.max, r.max, nchunk, 1)
  }

  /** The start of the buffer survives the mask, and the region's top survives, or the region does not. */
  ghost predicate Freeable(live: map<nat, Buf>, id: nat)
    requires id in live
  {
    var b := live[id];
    && b.hmem.max > 0 && And(b.base, b.hmem.max - 1) == b.base
    && (PowerOfTwo(b.hmem.max) || !Used(b.hmem, live - {id}))
  }

  /** In a region whose size is a power of two every search and every free is safe. */
  lemma PowerRegion(live: map<nat, Buf>, id: nat, nchunk: nat)
    requires id in live && PowerOfTwo(live[id].hmem.max) && live[id].base < live[id].hmem.max
    ensures Steady(live[id].hmem, nchunk) && Freeable(live, id)
  {
    MaskKeeps(live[id].base, live[id].hmem.max);
  }

  ghost predicate Used(r: Bitmap, live: map<nat, Buf>) {
    exists id: nat :: id in live && live[id].hmem == r
  }

  /** A region counts as empty exactly when no live buffer is in it. */
  lemma EmptyMeansUnused(r: Bitmap, live: map<nat, Buf>)
    requires Booked(r, live) && Disjoint(live)
    requires forall id: nat :: id in live && live[id].hmem == r ==> live[id].base + live[id].nchunk <= r.max
    ensures r.avail == r.max <==> !Used(r, live)
  {
    hide Bit, Clears;
    ClearsBounds(r.table, W, r.max);
    if Used(r, live) {
      var id: nat :| id in live && live[id].hmem == r;
      assert Owns(live, id, r, live[id].base);
      assert Owned(live, r, live[id].base);
    } else {
      forall i: nat | i < r.max
        ensures !Bit(r.table, W, i)
      {
        assert forall id: nat :: Owns(live, id, r, i) ==> Used(r, live);
      }
    }
  }

  // ---------------------------------------------------------------- whole runs

  /** `shmOk` and `forkOk` as in `AllocHugeBuf`; a buffer is known by the number of the event that asked for it. */
  datatype Event = Alloc(size: nat, shmOk: bool, forkOk: bool) | Free(id: nat)

  /** The buffers that are out after event `i`, which was answered with `got`. */
  function Out(live: map<nat, Buf>, i: nat, ev: Event, got: Option<Buf>): map<nat, Buf> {
    match ev
    case Alloc(_, _, _) => if got.Some? then live[i := got.value] else live
    case Free(id) => live - {id}
  }

  function Outs(script: seq<Event>, got: seq<Option<Buf>>): map<nat, Buf>
    requires |got| == |script|
  {
    if script == [] then map[] else
      var n := |script| - 1;
      Out(Outs(script[..n], got[..n]), n, script[n], got[n])
  }

  /** Some region with a buffer has `n` chunks in a row that belong to no buffer. */
  ghost predicate Roomy(live: map<nat, Buf>, n: nat) {
    exists id: nat, s: nat :: id in live && FreeRun(live, live[id].hmem, s, n)
  }

  ghost predicate FreeRun(live: map<nat, Buf>, r: Bitmap, s: nat, n: nat) {
    s + n <= r.max && forall i: nat :: s <= i < s + n ==> !Owned(live, r, i)
  }

  /** The buffers that are out overlap nowhere and lie inside their regions. */
  ghost predicate Orderly(live: map<nat, Buf>) {
    Disjoint(live) && forall id: nat :: id in live ==> live[id].base + live[id].nchunk <= live[id].hmem.max
  }

  /** The answer to an event while the buffers `live` are out. A request is met exactly when its pages can be excluded
      from forks and there is room, or a new region can be had; a new region only without room. */
  ghost predicate Answers(live: map<nat, Buf>, ev: Event, got: Option<Buf>) {
    match ev
    case Free(_) => got.None?
    case Alloc(size, shmOk, forkOk) =>
      && (got.Some? <==> forkOk && (shmOk || Roomy(live, Chunks(size))))
      && (got.Some? ==> got.value.nchunk == Chunks(size))
      && (got.Some? ==> if Roomy(live, Chunks(size)) then Used(got.value.hmem, live)
                        else !Used(got.value.hmem, live) && got.value.hmem.max == RegionSize(size))
  }

  ghost predicate Played(script: seq<Event>, got: seq<Option<Buf>>) {
    && |got| == |script|
    && (forall i :: 0 <= i <= |script| ==> Orderly(Outs(script[..i], got[..i])))
    && forall i :: 0 <= i < |script| ==> Answers(Outs(script[..i], got[..i]), script[i], got[i])
  }

  /** All regions that the event can make have a power of two of chunks. */
  predicate Even(ev: Event) {
    ev.Alloc? ==> ev.size > 0 && PowerOfTwo(RegionSize(ev.size))
  }

  ghost predicate Powers(list: seq<Bitmap>) {
    forall k :: 0 <= k < |list| ==> PowerOfTwo(list[k].max)
  }

  /** A region's bitmap has a suitable range exactly when its buffers leave one. */
  lemma RangeFree(r: Bitmap, live: map<nat, Buf>, n: nat)
    requires Booked(r, live) && n > 0
    ensures NoRange(r, n) <==> forall s: nat :: !FreeRun(live, r, s, n)
  {
    hide Bit, Clears, Owned;
    if s: nat :| FreeRun(live, r, s, n) {
      assert Suitable(r.table, s, r.max, n, 1);
    } else if !NoRange(r, n) {
      var s: nat :| s < r.max && Suitable(r.table, s, r.max, n, 1);
      assert FreeRun(live, r, s, n);
    }
  }

  /** There is room exactly when the bitmap of some region of the list has some. */
  lemma RoomyMeans(a: Allocator, n: nat)
    requires a.Valid() && n > 0
    ensures Roomy(a.live, n) <==> exists j :: 0 <= j < |a.list| && !NoRange(a.list[j], n)
  {
    hide NoRange, FreeRun, Booked, Disjoint, NoDups;
    forall r | r in a.list
      ensures NoRange(r, n) <==> forall s: nat :: !FreeRun(a.live, r, s, n)
    {
      RangeFree(r, a.live, n);
    }
    if Roomy(a.live, n) {
      var id: nat, s: nat :| id in a.live && FreeRun(a.live, a.live[id].hmem, s, n);
      assert a.Placed(a.live[id]);
      var j :| 0 <= j < |a.list| && a.list[j] == a.live[id].hmem;
      assert !NoRange(a.list[j], n);
    }
    if j :| 0 <= j < |a.list| && !NoRange(a.list[j], n) {
      var r := a.list[j];
      assert r in a.list && Used(r, a.live);
      var id: nat :| id in a.live && a.live[id].hmem == r;
      var s: nat :| FreeRun(a.live, r, s, n);
    }
  }

  lemma ListUsed(a: Allocator)
    requires a.Valid()
    ensures forall r :: r in a.list <==> Used(r, a.live)
    ensures Orderly(a.live) && forall id: nat :: id in a.live ==> a.live[id].hmem in a.list
  {
    hide Booked, Disjoint, NoDups;
    forall id: nat | id in a.live
      ensures a.live[id].hmem in a.list && a.live[id].base + a.live[id].nchunk <= a.live[id].hmem.max
    {
      assert a.Placed(a.live[id]);
    }
  }

  /** One event, with the buffers `out` out. */
  method Step(a: Allocator, ev: Event, i: nat, out: map<nat, Buf>) returns (got: Option<Buf>)
    requires a.Valid() && Powers(a.list) && a.live == out && i !in out && Even(ev)
    modifies a, a.list
    ensures a.Valid() && Powers(a.list) && a.live == Out(out, i, ev, got) && Answers(out, ev, got)
    ensures forall k :: 0 <= k < |a.list| ==> a.list[k] in old(a.list) || fresh(a.list[k])
  {
    hide NoDups, Disjoint, Booked, Used, Steady, Freeable, PowerOfTwo, NoRange, Roomy, RegionSize, Chunks;
    got := None;
    ghost var was := a.list;
    PowersSteady(was, 1);
    match ev
    case Alloc(size, shmOk, forkOk) =>
      ChunksPositive(size);
      RoomyMeans(a, Chunks(size));
      ListUsed(a);
      PowersSteady(a.list, Chunks(size));
      got := a.AllocHugeBuf(size, shmOk, forkOk, i);
      if got.Some? { UnusedHolds(got.value.hmem, out); }
    case Free(id) =>
      if id in out {
        ListUsed(a);
        assert a.Placed(out[id]);
        PowerFree(out, id);
        a.FreeHugeBuf(out[id], id);
      } else {
        assert out - {id} == out;
      }
  }

  lemma ChunksPositive(size: nat)
    requires size > 0
    ensures Chunks(size) > 0
  {
  }

  lemma PowersSteady(list: seq<Bitmap>, n: nat)
    requires Powers(list)
    ensures forall r :: r in list ==> PowerOfTwo(r.max) && Steady(r, n)
  {
  }

  lemma PowerFree(live: map<nat, Buf>, id: nat)
    requires id in live && PowerOfTwo(live[id].hmem.max) && Orderly(live)
    ensures Freeable(live, id)
  {
    PowerRegion(live, id, 1);
  }

  lemma NextOut(script: seq<Event>, got: seq<Option<Buf>>, i: nat, g: Option<Buf>)
    requires i < |script| && |got| == i
    ensures Outs(script[..i + 1], got + [g]) == Out(Outs(script[..i], got), i, script[i], g)
  {
    assert script[..i + 1][..i] == script[..i] && (got + [g])[..i] == got;
  }

  lemma {:induction false} OutsBelow(script: seq<Event>, got: seq<Option<Buf>>)
    requires |got| == |script|
    ensures forall id: nat :: id in Outs(script, got) ==> id < |script|
  {
    if script != [] { OutsBelow(script[..|script| - 1], got[..|script| - 1]); }
  }

  lemma PlayedNone(script: seq<Event>)
    ensures Played(script[..0], []) && Outs(script[..0], []) == map[]
  {
  }

  lemma PlayedMore(script: seq<Event>, got: seq<Option<Buf>>, i: nat, g: Option<Buf>)
    requires i < |script| && Played(script[..i], got)
    requires Answers(Outs(script[..i], got), script[i], g) && Orderly(Out(Outs(script[..i], got), i, script[i], g))
    ensures Played(script[..i + 1], got + [g])
  {
    hide Outs, Orderly, Answers, Out;
    var s, got' := script[..i + 1], got + [g];
    NextOut(script, got, i, g);
    forall j | 0 <= j <= i
      ensures s[..j] == script[..i][..j] && got'[..j] == got[..j]
    {
    }
    assert s[..i + 1] == s && got'[..i + 1] == got' && script[..i][..i] == script[..i] && got[..i] == got;
  }

  /** Every run from the start whose requests make regions of a power of two of chunks: after each event the buffers
      that are out, which the script and the answers tell, overlap nowhere and lie inside their regions; each answer is
      determined by the buffers that are out; and a region is kept exactly while a buffer is in it. */
  method Run(script: seq<Event>) returns (a: Allocator, got: seq<Option<Buf>>)
    requires forall i :: 0 <= i < |script| ==> Even(script[i])
    ensures fresh(a) && a.Valid() && Played(script, got) && a.live == Outs(script, got)
    ensures forall r :: r in a.list <==> Used(r, Outs(script, got))
  {
    hide Outs, Played, Orderly, Answers, Out, Even, Powers, Used, NoDups, Disjoint, Booked;
    got := [];
    a := new Allocator();
    PlayedNone(script);
    NoPowers();
    for i := 0 to |script|
      invariant fresh(a) && forall k :: 0 <= k < |a.list| ==> fresh(a.list[k])
      invariant a.Valid() && Powers(a.list) && |got| == i
      invariant Played(script[..i], got) && a.live == Outs(script[..i], got)
    {
      OutsBelow(script[..i], got);
      var g := Step(a, script[i], i, Outs(script[..i], got));
      ListUsed(a);
      PlayedMore(script, got, i, g);
      NextOut(script, got, i, g);
      got := got + [g];
    }
    assert script[..|script|] == script;
    ListUsed(a);
  }

  lemma NoPowers()
    ensures Powers([])
  {
  }

  /** A limit on the size of requests keeps all regions powers of two exactly when it is at most 128 chunks, 4 MB. */
  lemma SafeLimit(limit: nat)
    ensures (forall size: nat :: 0 < size <= limit ==> PowerOfTwo(RegionSize(size))) <==> limit <= 128 * CHUNK
  {
    if limit <= 128 * CHUNK {
      forall size: nat | 0 < size <= limit
        ensures PowerOfTwo(RegionSize(size))
      {
        assert Chunks(size) <= 128 && (RegionSize(size) == 64 || RegionSize(size) == 128);
        PowersUpTo128();
      }
    } else {
      assert RegionSize(128 * CHUNK + 1) == 192;
      PowersUpTo128();
    }
  }

  lemma PowersUpTo128()
    ensures PowerOfTwo(64) && PowerOfTwo(128) && !PowerOfTwo(192)
  {
    assert PowerOfTwo(1) && PowerOfTwo(2) && PowerOfTwo(4) && PowerOfTwo(8) && PowerOfTwo(16) && PowerOfTwo(32);
    assert !PowerOfTwo(3) && !PowerOfTwo(6) && !PowerOfTwo(12) && !PowerOfTwo(24) && !PowerOfTwo(48) && !PowerOfTwo(96);
  }

  // ---------------------------------------------------------------- regions whose size is not a power of two

  lemma RegionFacts(size: nat)
    requires size > 0
    ensures RegionSize(size) % 64 == 0 && RegionSize(size) - 64 < Chunks(size) <= RegionSize(size)
    ensures (Chunks(size) - 1) * CHUNK < size <= Chunks(size) * CHUNK
  {
  }

  /** The sizes of a run that goes wrong, none larger than `size`: the first request makes a region and leaves some of
      it, the second takes the rest, and when the first has been freed the third takes its place, in part. */
  function Sizes(size: nat): (s: seq<nat>)
    requires size > 0 && !PowerOfTwo(RegionSize(size))
    ensures |s| == 3 && forall k :: 0 <= k < 3 ==> 0 < s[k] <= size
    ensures RegionSize(s[0]) == RegionSize(size)
    ensures Chunks(s[0]) + Chunks(s[1]) == RegionSize(size) && 0 < Chunks(s[1]) < 64
    ensures var top := And(RegionSize(size), RegionSize(size) - 1);
      0 < top < Chunks(s[0]) && Chunks(s[2]) == Chunks(s[0]) - top + 1
  {
    var r := RegionSize(size);
    var top := And(r, r - 1);
    var n := if Chunks(size) == r then r - 1 else Chunks(size);
    SizesFit(size, r, top, n);
    [if Chunks(size) == r then n * CHUNK else size, (r - n) * CHUNK, (n - top + 1) * CHUNK]
  }

  lemma SizesFit(size: nat, r: nat, top: nat, n: nat)
    requires size > 0 && !PowerOfTwo(RegionSize(size)) && r == RegionSize(size) && top == And(r, r - 1)
    requires n == if Chunks(size) == r then r - 1 else Chunks(size)
    ensures r - 64 < n < r && 0 < top <= r - 64 && r >= 192
    ensures n * CHUNK <= size || Chunks(size) == n
    ensures (r - n) * CHUNK <= size && (n - top + 1) * CHUNK <= size
    ensures forall k: nat :: k > 0 ==> Chunks(k * CHUNK) == k
    ensures RegionSize(n * CHUNK) == r
  {
    hide And, PowerOfTwo, Chunks, RegionSize;
    RegionFacts(size);
    MaskLeaves(r);
    EvenMask(r);
    AtLeast192(r);
    forall k: nat | k > 0
      ensures Chunks(k * CHUNK) == k
    {
      ChunksOf(k);
    }
    RegionOf(n, r);
  }

  lemma EvenMask(r: nat)
    requires r > 0 && r % 64 == 0
    ensures And(r, r - 1) % 2 == 0
  {
    hide And;
    EvenAnd(r, r - 1);
  }

  lemma AtLeast192(r: nat)
    requires r > 0 && r % 64 == 0 && !PowerOfTwo(r)
    ensures r >= 192
  {
    PowersUpTo128();
  }

  lemma ChunksOf(k: nat)
    ensures Chunks(k * CHUNK) == k
  {
  }

  lemma RegionOf(n: nat, r: nat)
    requires r % 64 == 0 && r - 64 < n <= r
    ensures RegionSize(n * CHUNK) == r
  {
    ChunksOf(n);
  }

  /** The bitmap calls that the requests of `Sizes(size)` lead to when the region of the first is the only one: two
      requests, a free of the first and a request in its place. The second and the last buffer are out and share a
      chunk. `ts` are the tables passed. */
  method LiveOverlap(size: nat) returns (hmem: Bitmap, starts: seq<int>, ghost ts: seq<seq<Word>>)
    requires size > 0 && !PowerOfTwo(RegionSize(size))
    ensures fresh(hmem) && hmem.max == RegionSize(size)
    ensures var n, r := Chunks(Sizes(size)[0]), RegionSize(size);
      && starts == [0, n, And(r, r - 1)]
      && starts[2] < starts[1] < starts[2] + Chunks(Sizes(size)[2])
      && |ts| == 5 && (forall i: nat :: !Bit(ts[0], W, i)) && Ranged(ts[0], ts[1], 0, n, true)
      && Ranged(ts[1], ts[2], n, n + Chunks(Sizes(size)[1]), true) && Ranged(ts[2], ts[3], 0, n, false)
      && Ranged(ts[3], ts[4], 0, Chunks(Sizes(size)[2]), true) && hmem.table == ts[4]
  {
    hide Bit, Clears, PowerOfTwo, And, Or, Suitable, Sizes, Chunks, RegionSize;
    var s := Sizes(size);
    var n, m, r := Chunks(s[0]), Chunks(s[1]), RegionSize(size);
    ghost var t0;
    var first;
    hmem, first, t0 := NewRegion(s[0]);
    ghost var t1 := hmem.table;
    var second := TakeRest(hmem, n, m);
    ghost var t2 := hmem.table;
    AndZero(r - 1);
    hmem.FreeRange(first, n);
    ghost var t3 := hmem.table;
    var third := TakeFirst(hmem, Chunks(s[2]));
    starts, ts := [first, second, third], [t0, t1, t2, t3, hmem.table];
  }

  lemma AndZero(b: nat)
    ensures And(0, b) == 0 && Or(0, b) == b
  {
  }

  /** The chunks behind the first `n`, when only those are taken. */
  method TakeRest(b: Bitmap, n: nat, m: nat) returns (start: int)
    requires b.Valid() && b.top == 0 && b.last == n && 0 < m && n + m == b.max
    requires forall i: nat :: i < b.max ==> Bit(b.table, W, i) == (i < n)
    modifies b
    ensures b.Valid() && start == n && Ranged(old(b.table), b.table, n, n + m, true) && b.top == 0
  {
    hide Bit, Clears, And, Or;
    assert Suitable(b.table, n, b.max, m, 1);
    ghost var s;
    start, s := b.AllocRange(m, 1);
    assert s == n;
    OrZero(s);
  }

  /** The first `m` chunks, when they are clear and the search starts there. */
  method TakeFirst(b: Bitmap, m: nat) returns (start: int)
    requires b.Valid() && b.last == 0 && 1 < m <= b.max && forall i: nat :: i < m ==> !Bit(b.table, W, i)
    modifies b
    ensures b.Valid() && start == b.top == old(b.top) && Ranged(old(b.table), b.table, 0, m, true)
  {
    hide Bit, Clears, And;
    assert Suitable(b.table, 0, b.max, m, 1);
    ghost var s;
    start, s := b.AllocRange(m, 1);
    assert s == 0;
  }

  /** Requests of 129, 63 and, when the first has been freed, 2 chunks: the last buffer is said to be 128 and 129, and
      the second starts at 129. */
  method SixMegabytes() returns (hmem: Bitmap, starts: seq<int>)
    ensures fresh(hmem) && hmem.max == 192 && starts == [0, 129, 128]
    ensures Chunks(Sizes(129 * CHUNK)[1]) == 63 && Chunks(Sizes(129 * CHUNK)[2]) == 2
  {
    hide And, PowerOfTwo;
    PowersUpTo128();
    Mask192();
    assert RegionSize(129 * CHUNK) == 192 && Chunks(129 * CHUNK) == 129;
    ghost var ts;
    hmem, starts, ts := LiveOverlap(129 * CHUNK);
  }

  lemma Mask192()
    ensures And(192, 191) == 128
  {
    assert And(3, 2) == 2;
    assert And(6, 5) == 4;
    assert And(12, 11) == 8;
    assert And(24, 23) == 16;
    assert And(48, 47) == 32;
    assert And(96, 95) == 64;
  }
}
