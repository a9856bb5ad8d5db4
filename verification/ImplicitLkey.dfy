/** Memory regions for an implicit key: a region of 2^28 bytes is registered on demand for
    every half-overlapping window of the address space and kept in a two-level table.
 */
module ImplicitLkeys {
  import opened Common
  import Ring

  const MR_LEN: nat := 0x1000_0000               // 2^28
  const HALF: nat := 0x800_0000                  // 2^27
  const LEVEL1: nat := 0x400                     // 2^10 first-level entries
  const LEVEL2: nat := 0x800                     // 2^11 pairs in a second-level table
  const EFFECTIVE: nat := 0x2_0000_0000_0000     // 2^49: the addresses the tables tell apart
  const SPACE: nat := 0x1_0000_0000_0000_0000    // 2^64

  /** The top bits of an address; all zeros and all ones are canonical. */
  const ALL_ONES: nat := 0x7FFF

  datatype Mr = Mr(addr: nat, length: nat)

  datatype Result = Ok(mr: Mr) | EInval | ENoMem

  /** Whether an allocation or registration that a lookup asks for succeeds. */
  datatype Env = Env(tableOk: bool, levelOk: bool, regOk: bool, prefetchOk: bool)
  {
    predicate Good() { tableOk && levelOk && regOk && prefetchOk }
  }

  function Key1(addr: nat): nat { (addr / (MR_LEN * LEVEL2)) % LEVEL1 }

  function Key2(addr: nat): nat { (addr / MR_LEN) % LEVEL2 }

  /** Which region of a pair: the second one if the range reaches the end of the first. */
  function Index(addr: nat, len: nat): nat {
    if (addr / MR_LEN) % 2 != ((addr + len + 1) % SPACE / MR_LEN) % 2 then 1 else 0
  }

  function Base(addr: nat, len: nat): nat {
    addr / MR_LEN * MR_LEN + Index(addr, len) * HALF
  }

  predicate Canonical(addr: nat) {
    addr / EFFECTIVE == 0 || addr / EFFECTIVE == ALL_ONES
  }

  /** The address that an entry of the tables determines, below 2^49. */
  function SlotBase(key1: nat, entry: nat): nat {
    (key1 * LEVEL2 + entry / 2) * MR_LEN + (entry % 2) * HALF
  }

  ghost predicate Covers(mr: Mr, addr: nat, len: nat) {
    mr.addr <= addr && addr + len <= mr.addr + mr.length
  }

  /** The ranges that the chosen region covers, for an address `a` bytes into its window. */
  predicate Admissible(a: nat, len: nat) {
    a + len + 1 < MR_LEN || (HALF <= a && a + len <= MR_LEN + HALF)
  }

  /** The second region is chosen exactly when the range comes within a byte of the first one's end. */
  lemma IndexMeans(addr: nat, len: nat)
    requires addr < SPACE && len < MR_LEN
    ensures Index(addr, len) == if addr % MR_LEN + len + 1 < MR_LEN then 0 else 1
  {
    var q, a := addr / MR_LEN, addr % MR_LEN;
    var w := (addr + len + 1) % SPACE;
    assert w == addr + len + 1 || w == addr + len + 1 - SPACE;
    var r := (addr + len + 1) / MR_LEN;
    assert w / MR_LEN == r || w / MR_LEN == r - SPACE / MR_LEN;
    assert r == if a + len + 1 < MR_LEN then q else q + 1;
  }

  /** A range is inside the region chosen for it exactly when it is admissible. */
  lemma CoversIff(addr: nat, len: nat)
    requires addr < SPACE && len < MR_LEN
    ensures Covers(Mr(Base(addr, len), MR_LEN), addr, len) <==> Admissible(addr % MR_LEN, len)
  {
    IndexMeans(addr, len);
  }

  /** A length is safe at every address exactly when it is below 2^27, although lengths up to 2^28 are let through. */
  lemma SafeLengths(len: nat)
    requires len < MR_LEN
    ensures (forall addr: nat :: addr < SPACE ==> Covers(Mr(Base(addr, len), MR_LEN), addr, len)) <==> len < HALF
  {
    if len < HALF {
      forall addr: nat | addr < SPACE
        ensures Covers(Mr(Base(addr, len), MR_LEN), addr, len)
      {
        CoversIff(addr, len);
      }
    } else {
      var addr := HALF - 1;
      CoversIff(addr, len);
      assert !Admissible(addr % MR_LEN, len);
      assert !Covers(Mr(Base(addr, len), MR_LEN), addr, len);
    }
  }

  /** The entry used for an address determines the base of its region up to the top bits. */
  lemma SlotDetermines(addr: nat, len: nat)
    requires addr < SPACE && len < MR_LEN && Canonical(addr)
    ensures Key1(addr) < LEVEL1 && 2 * Key2(addr) + Index(addr, len) < 2 * LEVEL2
    ensures SlotBase(Key1(addr), 2 * Key2(addr) + Index(addr, len)) == Base(addr, len) - addr / EFFECTIVE * EFFECTIVE
  {
    var q := addr / MR_LEN;
    assert addr / (MR_LEN * LEVEL2) == q / LEVEL2;
    assert addr / EFFECTIVE == q / (LEVEL1 * LEVEL2);
    assert q == (q / LEVEL2) * LEVEL2 + q % LEVEL2;
    assert q / LEVEL2 == (q / LEVEL2 / LEVEL1) * LEVEL1 + (q / LEVEL2) % LEVEL1;
    assert q / LEVEL2 / LEVEL1 == q / (LEVEL1 * LEVEL2);
  }

  /** First level: none until the first lookup; second level: entry `2 * key2 + index`. */
  type Table = Option<seq<Option<seq<Option<Mr>>>>>

  ghost function Entry(t: Table, i: nat, e: nat): Option<Mr> {
    if t.Some? && i < |t.value| && t.value[i].Some? && e < |t.value[i].value| then t.value[i].value[e] else None
  }

  /** The table, its level or the entry's region is not there, and cannot be had. */
  ghost predicate Lacks(t: Table, i: nat, e: nat, env: Env) {
    || (t.None? && !env.tableOk)
    || ((t.None? || (i < |t.value| && t.value[i].None?)) && !env.levelOk)
    || (Entry(t, i, e).None? && !env.regOk)
  }

  ghost predicate Shaped(t: Table) {
    t.Some? ==> && |t.value| == LEVEL1
                && forall i :: 0 <= i < LEVEL1 && t.value[i].Some? ==> |t.value[i].value| == 2 * LEVEL2
  }

  ghost predicate Fits(mr: Mr, i: nat, e: nat) {
    mr.length == MR_LEN && (mr.addr == SlotBase(i, e) || mr.addr == SlotBase(i, e) + ALL_ONES * EFFECTIVE)
  }

  ghost predicate AllFit(t: Table) {
    forall i: nat, e: nat :: Entry(t, i, e).Some? ==> Fits(Entry(t, i, e).value, i, e)
  }

  ghost predicate SameEntries(t: Table, t': Table) {
    forall i: nat, e: nat :: Entry(t', i, e) == Entry(t, i, e)
  }

  /** Only the entry at (i, e) differs. */
  ghost predicate OnlyEntry(t: Table, t': Table, i: nat, e: nat) {
    forall i': nat, e': nat :: !(i' == i && e' == e) ==> Entry(t', i', e') == Entry(t, i', e')
  }

  lemma NewTable(t: Table)
    requires t.None?
    ensures var t' := Some(seq(LEVEL1, _ => None)); Shaped(t') && SameEntries(t, t')
  {
  }

  lemma NewLevel(t: Table, i: nat)
    requires t.Some? && Shaped(t) && i < LEVEL1 && t.value[i] == None
    ensures var t' := Some(t.value[i := Some(seq(2 * LEVEL2, _ => None))]); Shaped(t') && SameEntries(t, t')
  {
  }

  lemma SetEntry(t: Table, i: nat, e: nat, mr: Mr)
    requires t.Some? && Shaped(t) && i < LEVEL1 && t.value[i].Some? && e < 2 * LEVEL2
    ensures var t' := Some(t.value[i := Some(t.value[i].value[e := Some(mr)])]);
      Shaped(t') && OnlyEntry(t, t', i, e) && Entry(t', i, e) == Some(mr)
  {
  }

  /** Every region was registered for an address with the top bits `top`. */
  ghost predicate Only(t: Table, top: nat) {
    forall i: nat, e: nat :: Entry(t, i, e).Some? ==>
      Entry(t, i, e).value == Mr(SlotBase(i, e) + top * EFFECTIVE, MR_LEN)
  }

  /** The entry for a range is free, or its region was registered for the same top bits. */
  ghost predicate Usable(t: Table, addr: nat, len: nat) {
    var o := Entry(t, Key1(addr), 2 * Key2(addr) + Index(addr, len));
    o.None? || o.value.addr == Base(addr, len)
  }

  /** Entries of `t0` are kept, and those added are for addresses with the top bits `top`. */
  ghost predicate Filled(t0: Table, t: Table, top: nat) {
    forall i: nat, e: nat :: Entry(t, i, e) == Entry(t0, i, e)
      || (Entry(t0, i, e).None? && Entry(t, i, e) == Some(Mr(SlotBase(i, e) + top * EFFECTIVE, MR_LEN)))
  }

  lemma OnlyUsable(t: Table, addr: nat, len: nat)
    requires addr < SPACE && len < MR_LEN && Canonical(addr) && Only(t, addr / EFFECTIVE)
    ensures Usable(t, addr, len)
  {
    hide Entry, Key1, Key2, Index, SlotBase, Base;
    SlotDetermines(addr, len);
  }

  lemma FilledOnly(t0: Table, t: Table, top: nat)
    requires Filled(t0, t, top) && Only(t0, top)
    ensures Only(t, top)
  {
    hide Entry, SlotBase;
  }

  /** A lookup only fills the entry of its range. */
  lemma FilledMore(t0: Table, t: Table, t': Table, addr: nat, len: nat, mr: Mr)
    requires addr < SPACE && len < MR_LEN && Canonical(addr) && Filled(t0, t, addr / EFFECTIVE)
    requires var i, e := Key1(addr), 2 * Key2(addr) + Index(addr, len);
      && OnlyEntry(t, t', i, e) && Entry(t', i, e) == Some(mr)
      && mr == if Entry(t, i, e).Some? then Entry(t, i, e).value else Mr(Base(addr, len), MR_LEN)
    ensures Filled(t0, t', addr / EFFECTIVE)
  {
    hide Entry, Key1, Key2, Index, SlotBase, Base;
    SlotDetermines(addr, len);
  }

  lemma FilledStart(t: Table, top: nat)
    ensures Filled(t, t, top)
  {
  }

  lemma FilledSame(t0: Table, t: Table, t': Table, top: nat)
    requires Filled(t0, t, top) && SameEntries(t, t')
    ensures Filled(t0, t', top)
  {
    hide Entry, SlotBase;
  }

  /** Filling entries for the same top bits does not change what is usable. */
  lemma FilledUsable(t0: Table, t: Table, addr: nat, len: nat)
    requires addr < SPACE && len < MR_LEN && Canonical(addr) && Filled(t0, t, addr / EFFECTIVE)
    ensures Usable(t0, addr, len) <==> Usable(t, addr, len)
  {
    hide Entry, Key1, Key2, Index, SlotBase, Base;
    SlotDetermines(addr, len);
  }

  /** An entry that fits its slot covers a range exactly when the range is admissible and the entry was made for an
      address with the same top bits. */
  lemma CoverExact(mr: Mr, addr: nat, len: nat)
    requires addr < SPACE && len < MR_LEN && Canonical(addr)
    requires Fits(mr, Key1(addr), 2 * Key2(addr) + Index(addr, len))
    ensures Covers(mr, addr, len) <==> Admissible(addr % MR_LEN, len) && mr.addr == Base(addr, len)
  {
    SlotDetermines(addr, len);
    CoversIff(addr, len);
    hide Key1, Key2, SlotBase, Admissible, Index;
    if mr.addr != Base(addr, len) {
      var low := addr / MR_LEN * MR_LEN;
      assert Base(addr, len) == low || Base(addr, len) == low + HALF by { IndexBound(addr, len); }
    }
  }

  lemma IndexBound(addr: nat, len: nat)
    ensures Index(addr, len) <= 1
  {
  }

  /** A stretch handed to the device by a prefetch, with its region. */
  datatype Piece = Piece(addr: nat, len: nat, mr: Mr)

  /** The pieces lie end to end from `lo` to `hi`; each is inside its region exactly when its entry in `t` was
      usable. */
  ghost predicate Tiles(t: Table, top: nat, pieces: seq<Piece>, lo: nat, hi: nat) {
    if pieces == [] then lo == hi else
      var last := pieces[|pieces| - 1];
      && last.addr + last.len == hi && Tiled(t, top, last)
      && Tiles(t, top, pieces[..|pieces| - 1], lo, last.addr)
  }

  ghost predicate Tiled(t: Table, top: nat, p: Piece) {
    && 0 < p.len < MR_LEN && p.addr < SPACE && Canonical(p.addr) && p.addr / EFFECTIVE == top
    && p.mr.length == MR_LEN && (Covers(p.mr, p.addr, p.len) <==> Usable(t, p.addr, p.len))
  }

  /** With regions for these top bits only, every piece is inside its region. */
  lemma TiledCovered(t: Table, top: nat, p: Piece)
    requires Tiled(t, top, p) && Only(t, top)
    ensures Covers(p.mr, p.addr, p.len)
  {
    hide Usable, Only;
    OnlyUsable(t, p.addr, p.len);
  }

  lemma TilesNone(t: Table, top: nat, lo: nat)
    ensures Tiles(t, top, [], lo, lo)
  {
  }

  lemma TilesMore(t: Table, top: nat, pieces: seq<Piece>, lo: nat, hi: nat, p: Piece)
    requires Tiles(t, top, pieces, lo, hi) && p.addr == hi && Tiled(t, top, p)
    ensures Tiles(t, top, pieces + [p], lo, hi + p.len)
  {
    assert (pieces + [p])[..|pieces|] == pieces;
  }

  ghost predicate Holds(p: Piece, x: nat) {
    p.addr <= x < p.addr + p.len
  }

  /** The pieces are in order and none overlaps another. */
  lemma {:induction false} TilesInOrder(t: Table, top: nat, pieces: seq<Piece>, lo: nat, hi: nat)
    requires Tiles(t, top, pieces, lo, hi)
    ensures lo <= hi && forall k :: 0 <= k < |pieces| ==> pieces[k].addr + pieces[k].len <= hi
    ensures forall j, k :: 0 <= j < k < |pieces| ==> pieces[j].addr + pieces[j].len <= pieces[k].addr
    ensures forall k :: 0 <= k < |pieces| ==> Tiled(t, top, pieces[k])
  {
    hide Tiled;
    if pieces != [] {
      var n := |pieces| - 1;
      TilesInOrder(t, top, pieces[..n], lo, pieces[n].addr);
      assert forall k :: 0 <= k < n ==> pieces[k] == pieces[..n][k];
    }
  }

  /** An address is in some piece exactly when it is in the range. */
  lemma {:induction false} TilesExactly(t: Table, top: nat, pieces: seq<Piece>, lo: nat, hi: nat, x: nat)
    requires Tiles(t, top, pieces, lo, hi)
    ensures lo <= hi && (lo <= x < hi <==> exists k :: 0 <= k < |pieces| && Holds(pieces[k], x))
  {
    hide Tiled;
    if pieces != [] {
      var n := |pieces| - 1;
      TilesExactly(t, top, pieces[..n], lo, pieces[n].addr, x);
      if k :| 0 <= k < n && Holds(pieces[..n][k], x) {
        assert pieces[k] == pieces[..n][k];
      } else {
        assert forall k :: 0 <= k < n ==> pieces[k] == pieces[..n][k];
      }
      assert Holds(pieces[n], x) <==> pieces[n].addr <= x < hi;
    }
  }

  /** A piece that stays inside a 2^27-byte stride is always admissible. */
  lemma StrideAdmissible(addr: nat, len: nat)
    requires 0 < len && addr % HALF + len <= HALF
    ensures Admissible(addr % MR_LEN, len) && len < MR_LEN
  {
    var q, r := addr / HALF, addr % HALF;
    Ring.DivUnique(addr, MR_LEN, q / 2, (q % 2) * HALF + r);
  }

  /** The range stays in the half of the canonical addresses that it starts in; an empty one may start anywhere. */
  predicate Walks(start: nat, len: nat) {
    len == 0 || start + len <= EFFECTIVE || (ALL_ONES * EFFECTIVE <= start && start + len < SPACE)
  }

  /** Where a walk that began at `start` may stand. */
  ghost predicate OnWay(start: nat, addr: nat) {
    addr == start || (start < EFFECTIVE && addr <= EFFECTIVE) || ALL_ONES * EFFECTIVE <= start <= addr
  }

  /** A stride taken from a canonical address ends where the next may be taken, or at the end of the lower half. */
  lemma StrideBound(start: nat, addr: nat, len: nat)
    requires start <= addr < SPACE && OnWay(start, addr) && Canonical(addr) && addr % HALF + len <= HALF
    ensures OnWay(start, addr + len) && addr / EFFECTIVE == start / EFFECTIVE
  {
    assert addr == addr / HALF * HALF + addr % HALF;
  }

  /** A walk that has not ended meets a canonical address exactly when its range stays in its half. */
  lemma StillWalking(start: nat, addr: nat, len: nat)
    requires start <= addr < start + len < SPACE && OnWay(start, addr)
    ensures Walks(start, len) ==> Canonical(addr)
    ensures !Canonical(addr) ==> !Walks(start, len)
  {
  }

  lemma WalkEnds(start: nat, len: nat)
    requires start + len < SPACE && OnWay(start, start + len)
    ensures Walks(start, len)
  {
  }

  lemma NoWrap(start: nat, len: nat)
    requires start < SPACE && len < SPACE
    ensures start <= (start + len) % SPACE <==> start + len < SPACE
    ensures start + len >= SPACE ==> !Walks(start, len)
  {
  }

  class ImplicitLkey {
    var table: Table

    constructor ()
      ensures Valid() && table == None
    {
      table := None;
    }

    ghost predicate Valid()
      reads this
    {
      Shaped(table) && AllFit(table)
    }

    /** Finds, or registers, the entry's region. */
    method Slot(key1: nat, e: nat, base: nat, env: Env) returns (r: Result)
      requires Shaped(table) && key1 < LEVEL1 && e < 2 * LEVEL2
      modifies this
      ensures Shaped(table) && r != EInval
      ensures r == ENoMem <==> Lacks(old(table), key1, e, env)
      ensures r == ENoMem ==> SameEntries(old(table), table)
      ensures r.Ok? ==> Entry(table, key1, e) == Some(r.mr) && OnlyEntry(old(table), table, key1, e)
      ensures r.Ok? ==>
        r.mr == if old(Entry(table, key1, e)).Some? then old(Entry(table, key1, e)).value else Mr(base, MR_LEN)
    {
      if table == None {
        if !env.tableOk { return ENoMem; }
        NewTable(table);
        table := Some(seq(LEVEL1, _ => None));
      }
      if table.value[key1] == None {
        if !env.levelOk { return ENoMem; }
        NewLevel(table, key1);
        table := Some(table.value[key1 := Some(seq(2 * LEVEL2, _ => None))]);
      }
      var level := table.value[key1].value;
      if level[e] == None {
        if !env.regOk { return ENoMem; }
        SetEntry(table, key1, e, Mr(base, MR_LEN));
        table := Some(table.value[key1 := Some(level[e := Some(Mr(base, MR_LEN))])]);
      }
      r := Ok(table.value[key1].value[e].value);
    }

    /** Looks up the region for a range. */
    method GetRealMr(addr: nat, len: nat, env: Env) returns (r: Result)
      requires Valid() && addr < SPACE && len < SPACE
      modifies this
      ensures Valid()
      ensures r == EInval <==> len >= MR_LEN || !Canonical(addr)
      ensures r == ENoMem <==>
        r != EInval && Lacks(old(table), Key1(addr), 2 * Key2(addr) + Index(addr, len), env)
      ensures !r.Ok? ==> SameEntries(old(table), table)
      ensures r.Ok? ==> var i, e := Key1(addr), 2 * Key2(addr) + Index(addr, len);
        && Entry(table, i, e) == Some(r.mr) && OnlyEntry(old(table), table, i, e)
        && r.mr == if old(Entry(table, i, e)).Some? then old(Entry(table, i, e)).value else Mr(Base(addr, len), MR_LEN)
      ensures r.Ok? ==> r.mr.length == MR_LEN
      ensures r.Ok? ==> (Covers(r.mr, addr, len) <==> Admissible(addr % MR_LEN, len) && Usable(old(table), addr, len))
    {
      hide Entry, Key1, Key2, Index, SlotBase, Covers, Admissible;
      if len >= MR_LEN { return EInval; }
      if !Canonical(addr) { return EInval; }
      SlotDetermines(addr, len);
      hide Base;
      ghost var o := Entry(table, Key1(addr), 2 * Key2(addr) + Index(addr, len));
      CoverExact(if o.Some? then o.value else Mr(Base(addr, len), MR_LEN), addr, len);
      r := Slot(Key1(addr), 2 * Key2(addr) + Index(addr, len), Base(addr, len), env);
    }

    /** Prefetching walks the range in strides of 2^27 bytes. The pieces tile it from its start, all of it on success,
        and each is inside the region found for it exactly when its entry was usable before. Nothing but failing
        registrations stops it, exactly if the range stays in its half of the canonical addresses. */
    method Prefetch(start: nat, len: nat, env: nat -> Env) returns (ok: bool, pieces: seq<Piece>, ghost end: nat)
      requires Valid() && start < SPACE && len < SPACE
      modifies this
      ensures Valid() && Filled(old(table), table, start / EFFECTIVE)
      ensures Tiles(old(table), start / EFFECTIVE, pieces, start, end) && end <= start + len
      ensures (ok ==> end == start + len)
      ensures ok ==> Walks(start, len) && forall k :: 0 <= k < |pieces| ==> env(k).prefetchOk
      ensures !ok && Walks(start, len) ==> !env(|pieces|).Good()
      ensures (forall k: nat :: env(k).Good()) && Walks(start, len) ==> ok
    {
      hide Tiles, Tiled, Covers, Usable, Admissible, Base, Canonical, Walks, OnWay, Shaped, AllFit, Entry;
      hide Filled, OnlyEntry, SameEntries, Key1, Key2, Index;
      pieces, end := [], start;
      TilesNone(table, start / EFFECTIVE, start);
      FilledStart(table, start / EFFECTIVE);
      ghost var t0 := table;
      var addr, stop := start, (start + len) % SPACE;
      NoWrap(start, len);
      if addr > stop {
        return false, pieces, end;
      }
      var n := 0;
      assert OnWay(start, start) by { OnWayStart(start); }
      while addr < stop
        invariant start <= addr == end <= stop == start + len < SPACE && OnWay(start, addr)
        invariant Valid() && Filled(t0, table, start / EFFECTIVE) && Tiles(t0, start / EFFECTIVE, pieces, start, addr)
        invariant n == |pieces| && forall k :: 0 <= k < n ==> env(k).prefetchOk
        decreases stop - addr
      {
        var room := HALF - addr % HALF;
        var eff := if room < stop - addr then room else stop - addr;
        StillWalking(start, addr, len);
        StrideAdmissible(addr, eff);
        ghost var t := table;
        var r := GetRealMr(addr, eff, env(n));
        if !r.Ok? {
          FilledSame(t0, t, table, start / EFFECTIVE);
          return false, pieces, end;
        }
        StrideBound(start, addr, eff);
        FilledUsable(t0, t, addr, eff);
        FilledMore(t0, t, table, addr, eff, r.mr);
        var p := Piece(addr, eff, r.mr);
        IsTiled(t0, start / EFFECTIVE, p);
        TilesMore(t0, start / EFFECTIVE, pieces, start, addr, p);
        if !env(n).prefetchOk {
          return false, pieces, end;
        }
        pieces, addr, n := pieces + [p], addr + eff, n + 1;
        end := addr;
      }
      WalkEnds(start, len);
      ok := true;
    }
  }

  lemma OnWayStart(start: nat)
    ensures OnWay(start, start)
  {
  }

  lemma IsTiled(t: Table, top: nat, p: Piece)
    requires 0 < p.len < MR_LEN && p.addr < SPACE && Canonical(p.addr) && p.addr / EFFECTIVE == top
    requires p.mr.length == MR_LEN && (Covers(p.mr, p.addr, p.len) <==> Usable(t, p.addr, p.len))
    ensures Tiled(t, top, p)
  {
  }

  /** Addresses that differ only in their top bits use the same entry, for different regions. */
  lemma SameSlot(addr: nat, len: nat)
    requires addr < EFFECTIVE && len < MR_LEN
    ensures var high := addr + ALL_ONES * EFFECTIVE;
      && high < SPACE && Canonical(addr) && Canonical(high) && high % MR_LEN == addr % MR_LEN
      && Key1(high) == Key1(addr) && Key2(high) == Key2(addr) && Index(high, len) == Index(addr, len)
      && Base(high, len) == Base(addr, len) + ALL_ONES * EFFECTIVE
  {
    var high := addr + ALL_ONES * EFFECTIVE;
    SameKeys(addr);
    IndexMeans(addr, len);
    IndexMeans(high, len);
    hide Index, Key1, Key2, Canonical;
  }

  lemma SameKeys(addr: nat)
    requires addr < EFFECTIVE
    ensures var high := addr + ALL_ONES * EFFECTIVE;
      && high < SPACE && Canonical(addr) && Canonical(high) && high % MR_LEN == addr % MR_LEN
      && high / MR_LEN * MR_LEN == addr / MR_LEN * MR_LEN + ALL_ONES * EFFECTIVE
      && Key1(high) == Key1(addr) && Key2(high) == Key2(addr)
  {
    var high := addr + ALL_ONES * EFFECTIVE;
    assert high / MR_LEN == addr / MR_LEN + ALL_ONES * LEVEL1 * LEVEL2;
    assert high / (MR_LEN * LEVEL2) == addr / (MR_LEN * LEVEL2) + ALL_ONES * LEVEL1;
  }

  /** For every range at the bottom of the address space: once it has been looked up, the range at the same place in the
      upper half is answered with the same region, which does not contain it. */
  method HighAddressCollides(addr: nat, len: nat) returns (key: ImplicitLkey, low: Result, high: Result)
    requires addr < EFFECTIVE && len < MR_LEN
    ensures fresh(key) && key.Valid() && low == high == Ok(Mr(Base(addr, len), MR_LEN))
    ensures Entry(key.table, Key1(addr), 2 * Key2(addr) + Index(addr, len)) == Some(low.mr)
    ensures !Covers(high.mr, addr + ALL_ONES * EFFECTIVE, len)
    ensures Covers(low.mr, addr, len) <==> Admissible((addr + ALL_ONES * EFFECTIVE) % MR_LEN, len)
  {
    hide Entry, Key1, Key2, Index, SlotBase, Base, Admissible, Canonical, Covers;
    SameSlot(addr, len);
    key := new ImplicitLkey();
    assert Entry(key.table, Key1(addr), 2 * Key2(addr) + Index(addr, len)).None? by { EmptyTable(key.table); }
    low := key.GetRealMr(addr, len, Env(true, true, true, true));
    high := key.GetRealMr(addr + ALL_ONES * EFFECTIVE, len, Env(true, true, true, true));
  }

  lemma EmptyTable(t: Table)
    requires t == None
    ensures forall i: nat, e: nat :: Entry(t, i, e).None?
  {
  }

  // ---------------------------------------------------------------- runs of lookups

  datatype Lookup = Lookup(addr: nat, len: nat, env: Env)

  /** A range of less than 2^27 bytes that starts in the half of the address space with the top bits `top`. */
  predicate InHalf(l: Lookup, top: nat) {
    l.addr < SPACE && l.addr / EFFECTIVE == top && l.len < HALF
  }

  /** The answer to a lookup: the region for its own range, which contains it, unless memory or a registration
      failed. */
  ghost predicate RightFor(l: Lookup, r: Result) {
    if r.Ok? then r.mr == Mr(Base(l.addr, l.len), MR_LEN) && Covers(r.mr, l.addr, l.len)
    else r == ENoMem && !(l.env.tableOk && l.env.levelOk && l.env.regOk)
  }

  lemma ShortAdmissible(a: nat, len: nat)
    requires a < MR_LEN && len < HALF
    ensures Admissible(a, len)
  {
  }

  lemma OnlyNone(top: nat)
    ensures Only(None, top)
  {
  }

  /** Every run of such lookups, all in one half, from an empty table: each is answered with the right region, whatever
      the lookups before it were. */
  method Run(top: nat, script: seq<Lookup>) returns (key: ImplicitLkey, got: seq<Result>)
    requires top == 0 || top == ALL_ONES
    requires forall i :: 0 <= i < |script| ==> InHalf(script[i], top)
    ensures fresh(key) && key.Valid() && |got| == |script|
    ensures forall i :: 0 <= i < |script| ==> RightFor(script[i], got[i])
  {
    hide Only, Filled, Usable, Entry, Shaped, AllFit, SameEntries, OnlyEntry, Key1, Key2, Index, Base, Admissible;
    hide Covers;
    got := [];
    key := new ImplicitLkey();
    OnlyNone(top);
    FilledStart(key.table, top);
    for i := 0 to |script|
      invariant fresh(key) && key.Valid() && Filled(None, key.table, top) && |got| == i
      invariant forall j :: 0 <= j < i ==> RightFor(script[j], got[j])
    {
      var l := script[i];
      assert InHalf(l, top);
      ghost var t := key.table;
      FilledOnly(None, t, top);
      OnlyUsable(t, l.addr, l.len);
      ShortAdmissible(l.addr % MR_LEN, l.len);
      var r := key.GetRealMr(l.addr, l.len, l.env);
      if r.Ok? {
        UsableBase(t, l.addr, l.len, r.mr);
        FilledMore(None, t, key.table, l.addr, l.len, r.mr);
      } else {
        FilledSame(None, t, key.table, top);
      }
      got := got + [r];
    }
  }

  lemma UsableBase(t: Table, addr: nat, len: nat, mr: Mr)
    requires Usable(t, addr, len)
    requires var o := Entry(t, Key1(addr), 2 * Key2(addr) + Index(addr, len));
      mr == if o.Some? then o.value else Mr(Base(addr, len), MR_LEN)
    ensures mr.addr == Base(addr, len)
  {
    hide Entry, Key1, Key2, Index, Base;
  }
}
