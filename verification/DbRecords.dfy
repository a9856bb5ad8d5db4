/** Doorbell records: cache lines handed out from pages, each page with a table of free lines. */
module DbRecords {
  import opened Common
  import Ring
  import opened Words

  const W: nat := 64

  /** Line `i` of the page at `base`. */
  function Addr(base: nat, i: nat, line: nat): nat { base + i * line }

  /** The page an address is in: the low bits masked off. */
  function PageOf(db: nat, ps: nat): nat
    requires ps > 0
  {
    db / ps * ps
  }

  /** An address in a page determines the page and the line, and its line lies inside the page. */
  lemma AddrMeans(base: nat, i: nat, line: nat, ps: nat)
    requires 0 < line && 0 < ps && base % ps == 0 && i < ps / line
    ensures PageOf(Addr(base, i, line), ps) == base && (Addr(base, i, line) - base) / line == i
    ensures base <= Addr(base, i, line) && Addr(base, i, line) + line <= base + ps
  {
    LineInside(i, line, ps);
    Ring.DivUnique(i * line, line, i, 0);
    var q := base / ps;
    Multiple(base, ps);
    Ring.DivUnique(base + i * line, ps, q, i * line);
  }

  lemma LineInside(i: nat, line: nat, ps: nat)
    requires 0 < line && i < ps / line
    ensures i * line + line <= ps
  {
    var n := ps / line;
    assert ps == n * line + ps % line;
    assert n * line == i * line + line + (n - i - 1) * line;
  }

  lemma Multiple(base: nat, ps: nat)
    requires 0 < ps && base % ps == 0
    ensures base == base / ps * ps
  {
  }

  /** A page's table: lines in use are clear, and the spare bits past `num` are marked free. */
  ghost predicate PageOk(t: seq<Word>, num: nat, use: nat) {
    && Shaped(t, W) && num <= |t| * W && use == Clears(t, W, num)
    && forall i: nat :: num <= i < |t| * W ==> Bit(t, W, i)
  }

  /** As fewer than `num` lines are in use, the lowest free bit exists and is below `num`. */
  lemma FreeLine(t: seq<Word>, num: nat, use: nat)
    requires PageOk(t, num, use) && use < num
    ensures exists i: nat :: i < num && Bit(t, W, i)
  {
    hide Bit, Clears;
    ClearsBounds(t, W, num);
  }

  /** The lowest free line: the scan over the words ends inside the table, on a line of the page. */
  method Scan(t: seq<Word>, ghost num: nat, ghost use: nat) returns (idx: nat)
    requires PageOk(t, num, use) && use < num
    ensures idx < num && Bit(t, W, idx) && forall i: nat :: i < idx ==> !Bit(t, W, i)
  {
    hide Bit, Clears;
    FreeLine(t, num, use);
    ghost var least: nat :| least < num && Bit(t, W, least);
    var i := 0;
    while Clear(t[i])
      invariant i * W <= least && i < |t| && forall j: nat :: j < i * W ==> !Bit(t, W, j)
      decreases |t| - i
    {
      WordBits(t, W, i);
      assert least >= (i + 1) * W;
      i := i + 1;
    }
    var j := FirstBit(t[i], true);
    WordBits(t, W, i);
    idx := i * W + j;
  }

  class Page {
    const base: nat
    const numDb: nat
    var useCnt: nat
    var free: seq<Word>

    ghost predicate Valid()
      reads this
    {
      PageOk(free, numDb, useCnt)
    }

    constructor (base: nat, numDb: nat)
      ensures Valid() && this.base == base && this.numDb == numDb && useCnt == 0
      ensures forall i: nat :: i < numDb ==> Bit(free, W, i)
    {
      this.base, this.numDb, useCnt := base, numDb, 0;
      free := seq((numDb + W - 1) / W, _ => seq(W, _ => true));
      new;
      AllSet(free, numDb);
    }

    /** Takes the lowest free line. */
    method Take() returns (idx: nat)
      requires Valid() && useCnt < numDb
      modifies this
      ensures Valid() && useCnt == old(useCnt) + 1
      ensures idx < numDb && old(Bit(free, W, idx)) && forall i: nat :: i < idx ==> !old(Bit(free, W, i))
      ensures forall i: nat :: Bit(free, W, i) == (old(Bit(free, W, i)) && i != idx)
    {
      hide Bit, Clears, Put;
      useCnt := useCnt + 1;
      idx := Scan(free, numDb, useCnt - 1);
      PutBit(free, W, idx, false);
      ClearsPut(free, W, idx, false, numDb);
      free := Put(free, W, idx, false);
    }

    method Give(idx: nat)
      requires Valid() && idx < numDb && !Bit(free, W, idx)
      modifies this
      ensures Valid() && useCnt == old(useCnt) - 1
      ensures forall i: nat :: Bit(free, W, i) == (old(Bit(free, W, i)) || i == idx)
    {
      hide Bit, Clears, Put;
      PutBit(free, W, idx, true);
      ClearsPut(free, W, idx, true, numDb);
      ClearsBounds(free, W, numDb);
      free := Put(free, W, idx, true);
      useCnt := useCnt - 1;
    }
  }

  lemma AllSet(t: seq<Word>, num: nat)
    requires Shaped(t, W) && num <= |t| * W && forall k, j :: 0 <= k < |t| && 0 <= j < W ==> t[k][j]
    ensures PageOk(t, num, 0) && forall i: nat :: i < |t| * W ==> Bit(t, W, i)
  {
    hide Clears;
    ClearsBounds(t, W, num);
    forall i: nat | i < |t| * W
      ensures Bit(t, W, i)
    {
      WordOf(i, |t|, W);
    }
  }

  /** Record `a` is line `i` of page `p`. */
  ghost predicate IsLine(p: Page, i: nat, line: nat, a: nat) {
    i < p.numDb && a == Addr(p.base, i, line)
  }

  ghost predicate HasPage(list: seq<Page>, line: nat, a: nat) {
    exists p: Page, i: nat :: p in list && IsLine(p, i, line, a)
  }

  ghost predicate Apart(list: seq<Page>) {
    && (forall j, k :: 0 <= j < k < |list| ==> list[j] != list[k])
    && forall p, q :: p in list && q in list && p != q ==> p.base != q.base
  }

  lemma ApartMore(list: seq<Page>, p: Page)
    requires Apart(list) && p !in list && forall q :: q in list ==> q.base != p.base
    ensures Apart([p] + list)
  {
  }

  lemma ApartLess(list: seq<Page>, k: nat)
    requires Apart(list) && k < |list|
    ensures var rest := list[..k] + list[k + 1..]; Apart(rest) && forall q :: q in rest <==> q in list && q != list[k]
  {
    var rest := list[..k] + list[k + 1..];
    forall q | q in list && q != list[k]
      ensures q in rest
    {
      var j :| 0 <= j < |list| && list[j] == q;
      assert rest[if j < k then j else j - 1] == q;
    }
  }

  /** Distinct lines of distinct pages have distinct addresses. */
  lemma AddrApart(b: nat, i: nat, b': nat, i': nat, line: nat, ps: nat)
    requires 0 < line && 0 < ps && b % ps == 0 && b' % ps == 0 && i < ps / line && i' < ps / line
    ensures Addr(b, i, line) == Addr(b', i', line) <==> b == b' && i == i'
  {
    AddrMeans(b, i, line, ps);
    AddrMeans(b', i', line, ps);
  }

  /** Record `a` is the lowest line of the page at `base` that is not out. */
  ghost predicate IsLowest(outs: set<nat>, a: nat, base: nat, ps: nat, line: nat)
    requires line > 0
  {
    exists i: nat :: i < ps / line && a == Addr(base, i, line) && forall j: nat :: j < i ==> Addr(base, j, line) in outs
  }

  class Context {
    const ps: nat      // page size
    const line: nat    // cache line size
    var list: seq<Page>
    ghost var outs: set<nat>    // the records handed out

    constructor (ps: nat, line: nat)
      requires 0 < line <= ps
      ensures Valid() && list == [] && outs == {} && this.ps == ps && this.line == line
    {
      this.ps, this.line, list, outs := ps, line, [], {};
    }

    ghost predicate Valid()
      reads this, list
    {
      ValidBut(null)
    }

    /** In order, except that no record may be out from page `x`. */
    ghost predicate ValidBut(x: Page?)
      reads this, list
    {
      && 0 < line <= ps && Apart(list)
      && (forall p :: p in list ==> InOrder(p) && (p.useCnt > 0 || p == x))
      && (forall a :: a in outs ==> HasPage(list, line, a))
    }

    /** A page's lines in use are the records handed out from it. */
    ghost predicate InOrder(p: Page)
      requires line > 0 && ps > 0
      reads this, p
    {
      && p.Valid() && p.base % ps == 0 && p.numDb == ps / line
      && forall i: nat :: i < p.numDb ==> (Addr(p.base, i, line) in outs) == !Bit(p.free, W, i)
    }

    /** Hands out the lowest free line of a page that has one. */
    method TakeLine(p: Page) returns (r: nat)
      requires ValidBut(p) && p in list && p.useCnt < p.numDb
      modifies this`outs, p
      ensures Valid() && r !in old(outs) && outs == old(outs) + {r}
      ensures PageOf(r, ps) == p.base <= r && r + line <= p.base + ps && IsLowest(old(outs), r, p.base, ps, line)
    {
      hide Bit, PageOk, Addr, HasPage;
      var idx := p.Take();
      r := Addr(p.base, idx, line);
      outs := outs + {r};
      AddrMeans(p.base, idx, line, ps);
      forall q, i: nat | q in list && i < q.numDb
        ensures r == Addr(q.base, i, line) <==> q == p && i == idx
      {
        AddrApart(p.base, idx, q.base, i, line, ps);
      }
      OnPage(list, line, p, idx);
    }

    /** No page has a free line. */
    ghost predicate Crowded()
      reads this, list
    {
      forall k :: 0 <= k < |list| ==> list[k].useCnt >= list[k].numDb
    }

    /** The first page with a free line. */
    method FindPage() returns (k: nat)
      ensures k <= |list| && (k == |list| <==> Crowded())
      ensures k < |list| ==> list[k].useCnt < list[k].numDb
      ensures forall j :: 0 <= j < k ==> list[j].useCnt >= list[j].numDb
    {
      k := 0;
      while k < |list| && list[k].useCnt >= list[k].numDb
        invariant k <= |list| && forall j :: 0 <= j < k ==> list[j].useCnt >= list[j].numDb
      {
        k := k + 1;
      }
    }

    /** A record: a line of the first page that has a free one, else of a new page. `page`: where a new page would
        be. */
    method AllocDbrec(page: Option<nat>) returns (r: Option<nat>)
      requires Valid()
      requires page.Some? ==> page.value % ps == 0 && forall p :: p in list ==> p.base != page.value
      modifies this, list
      ensures Valid()
      ensures r.Some? ==> r.value !in old(outs) && outs == old(outs) + {r.value}
      ensures r.Some? ==> IsLowest(old(outs), r.value, PageOf(r.value, ps), ps, line)
      ensures r.Some? ==> PageOf(r.value, ps) <= r.value && r.value + line <= PageOf(r.value, ps) + ps
      ensures r.Some? ==> exists p :: p in list && p.base == PageOf(r.value, ps)
      ensures forall k :: 0 <= k < |list| ==> list[k] in old(list) || fresh(list[k])
      ensures r.None? ==> outs == old(outs) && list == old(list)
      ensures r.None? <==> page.None? && old(Crowded())
      ensures r.Some? ==> if old(Crowded()) then page == Some(PageOf(r.value, ps)) else list == old(list)
    {
      hide Bit, PageOk, Addr, HasPage, IsLowest, PageOf, Crowded;
      var k := FindPage();
      if k < |list| {
        var a := TakeLine(list[k]);
        return Some(a);
      }
      match page
      case None => r := None;
      case Some(base) =>
        var p := AddPage(base);
        var a := TakeLine(p);
        r := Some(a);
    }

    method AddPage(base: nat) returns (p: Page)
      requires Valid() && base % ps == 0 && forall p :: p in list ==> p.base != base
      modifies this`list
      ensures ValidBut(p) && fresh(p) && list == [p] + old(list) && p.base == base && p.useCnt < p.numDb
    {
      hide Bit, PageOk, Addr, Apart;
      AtLeastOne(line, ps);
      p := new Page(base, ps / line);
      forall i: nat | i < p.numDb
        ensures Addr(base, i, line) !in outs
      {
        NotOut(this, base, i);
      }
      ApartMore(list, p);
      HasMore(list, line, p);
      list := [p] + list;
    }

    /** Takes a record back; a page goes with its last record. An address in no page of the list is ignored. */
    method FreeDb(db: nat)
      requires Valid()
      requires db in outs || forall p :: p in list ==> p.base != PageOf(db, ps)
      modifies this, list
      ensures Valid() && outs == old(outs) - {db}
      ensures forall p :: p in list <==> p in old(list) && HasRecord(p)
    {
      hide Bit, PageOk, Addr, Apart, PageOf, HasPage, HasRecord;
      var k := 0;
      while k < |list| && PageOf(db, ps) != list[k].base
        invariant k <= |list| && forall j :: 0 <= j < k ==> list[j].base != PageOf(db, ps)
      {
        k := k + 1;
      }
      if k == |list| {
        NoSuchPage(this, db);
        forall p | p in list ensures HasRecord(p) { PageUse(this, p); }
        return;
      }
      var p := list[k];
      var i := (db - p.base) / line;
      LineOf(this, db, p, i);
      GiveLine(p, i, db);
      if p.useCnt == 0 {
        Unlink(k);
      } else {
        PageUse(this, p);
      }
      forall q | q in list ensures HasRecord(q) { PageUse(this, q); }
    }

    /** Some record of the page is out. */
    ghost predicate HasRecord(p: Page)
      reads this
    {
      exists i: nat :: i < p.numDb && Addr(p.base, i, line) in outs
    }

    method GiveLine(p: Page, i: nat, db: nat)
      requires Valid() && p in list && IsLine(p, i, line, db) && db in outs
      modifies this`outs, p
      ensures ValidBut(p) && outs == old(outs) - {db}
    {
      hide Bit, PageOk, Addr, HasPage;
      p.Give(i);
      outs := outs - {db};
      forall q, j: nat | q in list && j < q.numDb
        ensures db == Addr(q.base, j, line) <==> q == p && j == i
      {
        AddrApart(p.base, i, q.base, j, line, ps);
      }
    }

    method Unlink(k: nat)
      requires k < |list| && ValidBut(list[k]) && list[k].useCnt == 0
      modifies this`list
      ensures Valid() && !HasRecord(old(list[k])) && forall q :: q in list <==> q in old(list) && q != old(list[k])
    {
      hide Bit, PageOk, Addr, Apart;
      ApartLess(list, k);
      PageUse(this, list[k]);
      ghost var was, p := list, list[k];
      list := list[..k] + list[k + 1..];
      forall a | a in outs
        ensures HasPage(list, line, a)
      {
        var q: Page, i: nat :| q in was && IsLine(q, i, line, a);
        assert q != p;
      }
    }
  }

  /** A page counts a record exactly when one is out. */
  lemma PageUse(c: Context, p: Page)
    requires 0 < c.line <= c.ps && c.InOrder(p)
    ensures p.useCnt > 0 <==> c.HasRecord(p)
  {
    hide Bit, Clears, Addr;
    ClearsBounds(p.free, W, p.numDb);
  }

  /** No record is out from a page that is not in the list. */
  lemma NotOut(c: Context, base: nat, i: nat)
    requires c.Valid() && base % c.ps == 0 && i < c.ps / c.line && forall p :: p in c.list ==> p.base != base
    ensures Addr(base, i, c.line) !in c.outs
  {
    hide Addr, PageOk, Bit;
    var a := Addr(base, i, c.line);
    if a in c.outs {
      var p: Page, j: nat :| p in c.list && IsLine(p, j, c.line, a);
      AddrApart(base, i, p.base, j, c.line, c.ps);
    }
  }

  lemma NoSuchPage(c: Context, db: nat)
    requires c.Valid() && forall p :: p in c.list ==> p.base != PageOf(db, c.ps)
    ensures db !in c.outs
  {
    hide Addr, PageOk, Bit;
    if db in c.outs {
      var p: Page, j: nat :| p in c.list && IsLine(p, j, c.line, db);
      AddrMeans(p.base, j, c.line, c.ps);
    }
  }

  lemma LineOf(c: Context, db: nat, p: Page, i: int)
    requires c.Valid() && db in c.outs && p in c.list && p.base == PageOf(db, c.ps)
    requires i == (db - p.base) / c.line
    ensures i >= 0 && IsLine(p, i, c.line, db)
  {
    hide Addr, PageOk, Bit, PageOf;
    var q: Page, j: nat :| q in c.list && IsLine(q, j, c.line, db);
    AddrMeans(q.base, j, c.line, c.ps);
  }

  lemma HasMore(list: seq<Page>, line: nat, p: Page)
    ensures forall a :: HasPage(list, line, a) ==> HasPage([p] + list, line, a)
  {
    hide Addr;
    forall a | HasPage(list, line, a)
      ensures HasPage([p] + list, line, a)
    {
      var q: Page, i: nat :| q in list && IsLine(q, i, line, a);
      assert q in [p] + list;
    }
  }

  lemma AtLeastOne(line: nat, ps: nat)
    requires 0 < line <= ps
    ensures ps / line > 0
  {
  }

  lemma OnPage(list: seq<Page>, line: nat, p: Page, i: nat)
    requires p in list && i < p.numDb
    ensures HasPage(list, line, Addr(p.base, i, line))
  {
    assert IsLine(p, i, line, Addr(p.base, i, line));
  }

  // ---------------------------------------------------------------- records that are out, and whole runs

  /** A record that is out is a line of its page and lies inside it. */
  lemma OutMeans(c: Context, a: nat) returns (p: Page, i: nat)
    requires c.Valid() && a in c.outs
    ensures p in c.list && p.base % c.ps == 0 && i < c.ps / c.line && a == Addr(p.base, i, c.line)
    ensures PageOf(a, c.ps) == p.base <= a && a + c.line <= p.base + c.ps
  {
    hide Addr, PageOk, Bit, PageOf, Apart;
    p, i :| p in c.list && IsLine(p, i, c.line, a);
    AddrMeans(p.base, i, c.line, c.ps);
  }

  /** Two records that are out are different cache lines: they share no byte. */
  lemma OutApart(c: Context, a: nat, b: nat)
    requires c.Valid() && a in c.outs && b in c.outs && a != b
    ensures a + c.line <= b || b + c.line <= a
  {
    hide PageOk, Bit, Apart, HasPage, Addr, PageOf;
    var p, i := OutMeans(c, a);
    var q, j := OutMeans(c, b);
    LinesApart(p.base, i, q.base, j, c.line, c.ps);
  }

  lemma LinesApart(base: nat, i: nat, base': nat, i': nat, line: nat, ps: nat)
    requires 0 < line && 0 < ps && base % ps == 0 && base' % ps == 0 && i < ps / line && i' < ps / line
    requires base != base' || i != i'
    ensures var a, b := Addr(base, i, line), Addr(base', i', line); a + line <= b || b + line <= a
  {
    AddrMeans(base, i, line, ps);
    AddrMeans(base', i', line, ps);
    if base == base' {
      if i < i' { Above(i, i', line); } else { Above(i', i, line); }
    } else {
      Multiple(base, ps);
      Multiple(base', ps);
      var q, q' := base / ps, base' / ps;
      if q < q' { Above(q, q', ps); }
      if q' < q { Above(q', q, ps); }
    }
  }

  lemma Above(i: nat, j: nat, n: nat)
    requires i < j
    ensures i * n + n <= j * n
  {
    assert j * n == i * n + n + (j - i - 1) * n;
  }

  /** `page`: where the memory for a new page would be. */
  datatype Event = Alloc(page: Option<nat>) | Free(db: nat)

  /** The records out after an event that was answered with `got`. */
  function Out(outs: set<nat>, ev: Event, got: Option<nat>): set<nat> {
    match ev
    case Alloc(_) => if got.Some? then outs + {got.value} else outs
    case Free(db) => outs - {db}
  }

  function Outs(script: seq<Event>, got: seq<Option<nat>>): set<nat>
    requires |got| == |script|
  {
    if script == [] then {} else
      var n := |script| - 1;
      Out(Outs(script[..n], got[..n]), script[n], got[n])
  }

  /** The records are lines inside their pages, and no two share a byte. */
  ghost predicate Orderly(outs: set<nat>, ps: nat, line: nat)
    requires 0 < line <= ps
  {
    && (forall a :: a in outs ==> InPage(a, ps, line))
    && forall a, b :: a in outs && b in outs && a != b ==> a + line <= b || b + line <= a
  }

  ghost predicate InPage(a: nat, ps: nat, line: nat)
    requires 0 < line <= ps
  {
    var base := PageOf(a, ps);
    base <= a && a + line <= base + ps && (a - base) % line == 0
  }

  /** Records are out from the page at `base`. */
  predicate InUse(outs: set<nat>, base: nat, ps: nat)
    requires ps > 0
  {
    exists a :: a in outs && PageOf(a, ps) == base
  }

  /** All lines of the page at `base` are out. */
  ghost predicate Full(outs: set<nat>, base: nat, ps: nat, line: nat)
    requires line > 0
  {
    forall i: nat :: i < ps / line ==> Addr(base, i, line) in outs
  }

  /** Every page that records are out from has all its lines out. */
  ghost predicate AllFull(outs: set<nat>, ps: nat, line: nat)
    requires 0 < line <= ps
  {
    forall base :: InUse(outs, base, ps) ==> Full(outs, base, ps, line)
  }

  /** Memory for a page is aligned and not in use. */
  predicate Possible(outs: set<nat>, ev: Event, ps: nat)
    requires ps > 0
  {
    ev.Alloc? && ev.page.Some? ==> ev.page.value % ps == 0 && !InUse(outs, ev.page.value, ps)
  }

  /** The answer to an event while the records `outs` are out: a record that is not, the lowest free line of a page with
      records or, only if all of these are full, of the new page; none only if there is no page. */
  ghost predicate Answers(outs: set<nat>, ev: Event, got: Option<nat>, ps: nat, line: nat)
    requires 0 < line <= ps
  {
    match ev
    case Free(_) => got.None?
    case Alloc(page) =>
      if !Possible(outs, ev, ps) then got.None?
      else
        && (got.None? <==> page.None? && AllFull(outs, ps, line))
        && (got.Some? ==> got.value !in outs && IsLowest(outs, got.value, PageOf(got.value, ps), ps, line))
        && (got.Some? ==> if AllFull(outs, ps, line) then page == Some(PageOf(got.value, ps))
                          else InUse(outs, PageOf(got.value, ps), ps))
  }

  /** A page counts as full exactly when all its lines are out. */
  lemma PageFull(c: Context, p: Page)
    requires 0 < c.line <= c.ps && c.InOrder(p)
    ensures p.useCnt >= p.numDb <==> Full(c.outs, p.base, c.ps, c.line)
  {
    hide Bit, Clears, Addr;
    ClearsBounds(p.free, W, p.numDb);
  }

  /** The pages of the list are those that records are out from. */
  lemma PagesInUse(c: Context, base: nat)
    requires c.Valid()
    ensures InUse(c.outs, base, c.ps) <==> exists p :: p in c.list && p.base == base
  {
    hide PageOk, Bit, Addr, PageOf, Apart;
    if a :| a in c.outs && PageOf(a, c.ps) == base {
      var p, i := OutMeans(c, a);
    }
    if p :| p in c.list && p.base == base {
      PageUse(c, p);
      var i: nat :| i < p.numDb && Addr(p.base, i, c.line) in c.outs;
      AddrMeans(p.base, i, c.line, c.ps);
    }
  }

  lemma PagesFull(c: Context)
    requires c.Valid()
    ensures AllFull(c.outs, c.ps, c.line) <==> c.Crowded()
  {
    hide PageOk, Bit, Addr, PageOf, Apart, InUse, Full, HasPage;
    forall base: nat
      ensures InUse(c.outs, base, c.ps) <==> exists p :: p in c.list && p.base == base
    {
      PagesInUse(c, base);
    }
    forall p | p in c.list
      ensures p.useCnt >= p.numDb <==> Full(c.outs, p.base, c.ps, c.line)
    {
      PageFull(c, p);
    }
  }

  lemma OutsOrderly(c: Context)
    requires c.Valid()
    ensures Orderly(c.outs, c.ps, c.line)
  {
    hide PageOk, Bit, Addr, PageOf, Apart, HasPage, InPage;
    forall a | a in c.outs
      ensures InPage(a, c.ps, c.line)
    {
      OutInPage(c, a);
    }
    forall a, b | a in c.outs && b in c.outs && a != b
      ensures a + c.line <= b || b + c.line <= a
    {
      OutApart(c, a, b);
    }
  }

  lemma OutInPage(c: Context, a: nat)
    requires c.Valid() && a in c.outs
    ensures InPage(a, c.ps, c.line)
  {
    hide PageOk, Bit, PageOf, HasPage, Apart;
    var p, i := OutMeans(c, a);
    Ring.DivUnique(a - p.base, c.line, i, 0);
  }

  /** One event, with the records `out` out; one that is not possible is passed over. */
  method Step(c: Context, ev: Event, out: set<nat>) returns (got: Option<nat>)
    requires c.Valid() && c.outs == out
    modifies c, c.list
    ensures c.Valid() && c.outs == Out(out, ev, got) && Answers(out, ev, got, c.ps, c.line)
    ensures forall k :: 0 <= k < |c.list| ==> c.list[k] in old(c.list) || fresh(c.list[k])
  {
    hide PageOk, Bit, Addr, PageOf, Apart, HasPage, InUse, AllFull, IsLowest;
    got := None;
    match ev
    case Alloc(page) =>
      if Possible(out, ev, c.ps) {
        PagesFull(c);
        forall base: nat
          ensures InUse(out, base, c.ps) <==> exists p :: p in c.list && p.base == base
        {
          PagesInUse(c, base);
        }
        got := c.AllocDbrec(page);
      }
    case Free(db) =>
      PagesInUse(c, PageOf(db, c.ps));
      if db in out || !InUse(out, PageOf(db, c.ps), c.ps) {
        c.FreeDb(db);
      } else {
        assert out - {db} == out;
      }
  }

  ghost predicate Played(script: seq<Event>, got: seq<Option<nat>>, ps: nat, line: nat)
    requires 0 < line <= ps
  {
    && |got| == |script|
    && (forall i :: 0 <= i <= |script| ==> Orderly(Outs(script[..i], got[..i]), ps, line))
    && forall i :: 0 <= i < |script| ==> Answers(Outs(script[..i], got[..i]), script[i], got[i], ps, line)
  }

  lemma NextOut(script: seq<Event>, got: seq<Option<nat>>, i: nat, g: Option<nat>)
    requires i < |script| && |got| == i
    ensures Outs(script[..i + 1], got + [g]) == Out(Outs(script[..i], got), script[i], g)
  {
    assert script[..i + 1][..i] == script[..i] && (got + [g])[..i] == got;
  }

  lemma PlayedNone(script: seq<Event>, ps: nat, line: nat)
    requires 0 < line <= ps
    ensures Played(script[..0], [], ps, line) && Outs(script[..0], []) == {}
  {
  }

  lemma PlayedMore(script: seq<Event>, got: seq<Option<nat>>, i: nat, g: Option<nat>, ps: nat, line: nat)
    requires 0 < line <= ps && i < |script| && Played(script[..i], got, ps, line)
    requires Answers(Outs(script[..i], got), script[i], g, ps, line)
    requires Orderly(Out(Outs(script[..i], got), script[i], g), ps, line)
    ensures Played(script[..i + 1], got + [g], ps, line)
  {
    hide Outs, Orderly, Answers, Out;
    var s, got' := script[..i + 1], got + [g];
    NextOut(script, got, i, g);
    forall j | 0 <= j <= i
      ensures s[..j] == script[..i][..j] && got'[..j] == got[..j]
    {
    }
    assert s[..i + 1] == s && got'[..i + 1] == got' && script[..i][..i] == script[..i] && got[..i] == got;
  }

  /** Every run from the start: after each event the records that are out, which the script and the answers tell, are
      different cache lines inside their pages, each answer is determined by them, and a page is kept exactly while a
      record of it is out. */
  method Run(ps: nat, line: nat, script: seq<Event>) returns (c: Context, got: seq<Option<nat>>)
    requires 0 < line <= ps
    ensures fresh(c) && c.Valid() && c.ps == ps && c.line == line
    ensures Played(script, got, ps, line) && c.outs == Outs(script, got)
    ensures forall base: nat :: InUse(Outs(script, got), base, ps) <==> exists p :: p in c.list && p.base == base
  {
    hide Outs, Played, Orderly, Answers, Out, InUse, PageOk, Bit, Apart, HasPage;
    got := [];
    c := new Context(ps, line);
    PlayedNone(script, ps, line);
    for i := 0 to |script|
      invariant fresh(c) && forall k :: 0 <= k < |c.list| ==> fresh(c.list[k])
      invariant c.Valid() && c.ps == ps && c.line == line
      invariant |got| == i && Played(script[..i], got, ps, line) && c.outs == Outs(script[..i], got)
    {
      var g := Step(c, script[i], Outs(script[..i], got));
      OutsOrderly(c);
      PlayedMore(script, got, i, g, ps, line);
      NextOut(script, got, i, g);
      got := got + [g];
    }
    assert script[..|script|] == script;
    forall base: nat
      ensures InUse(c.outs, base, ps) <==> exists p :: p in c.list && p.base == base
    {
      PagesInUse(c, base);
    }
  }
}
