/** Updating code blocks after some data blocks have changed.

    The inputs of an update are the selected old code blocks followed by an old/new pair
    for every changed data block; the update matrix is an identity on the code blocks and
    repeats each changed row of the encode matrix twice.
 */
module ErasureUpdate {
  import opened ErasureMatrix
  import opened ErasureCalc
  import opened Selection

  /** Entry of the update matrix for changed data blocks `ds` and code blocks `cs`. */
  ghost function UpdateEntry<T>(f: Symbols<T>, matrix: seq<T>, k: nat, m: nat, ds: seq<nat>, cs: seq<nat>, r: nat,
                                c: nat): T
    requires k * m <= |matrix| && r < |cs| + 2 * |ds|
    requires (forall x :: 0 <= x < |ds| ==> ds[x] < k) && (forall x :: 0 <= x < |cs| ==> cs[x] < m)
  {
    if c >= |cs| then f.zero
    else if r < |cs| then (if r == c then f.one else f.zero)
    else
      CellInRange(0, m, k, ds[(r - |cs|) / 2], cs[c]);
      matrix[Cell(0, m, ds[(r - |cs|) / 2], cs[c])]
  }

  /** The shape every update matrix is built to: what to select and where to store. */
  datatype Shape<!T> = Shape(f: Symbols<T>, matrix: seq<T>, k: nat, m: nat, ds: seq<nat>, cs: seq<nat>)
  {
    ghost predicate Ok() {
      && k * m <= |matrix| && |cs| <= NUM_OUTPUTS
      && (forall x :: 0 <= x < |ds| ==> ds[x] < k)
      && (forall x :: 0 <= x < |cs| ==> cs[x] < m)
    }

    ghost function Rows(): nat { |cs| + 2 * |ds| }

    /** The part of code block `cs[c]` that the first `n` data blocks make up. */
    ghost function Dot(c: nat, data: seq<T>, n: nat): T
      requires c < |cs| && n <= |data|
    {
      ColDot(f, matrix, 0, m, cs[c], data, n)
    }

    ghost function Width(): nat { NOutputs(|cs|) }

    ghost predicate Has(buf: seq<T>, r: nat, c: nat)
      requires Ok() && r < Rows()
    {
      Holding(buf, Cell(0, Width(), r, c), UpdateEntry(f, matrix, k, m, ds, cs, r, c))
    }

    /** The first `c` columns of row `r` are in place. */
    ghost predicate HasRow(buf: seq<T>, r: nat, n: nat)
      requires Ok() && r < Rows()
    {
      forall c: nat :: c < n ==> Has(buf, r, c)
    }

    /** The first `n` rows are in place, without the padding column. */
    ghost predicate HasRows(buf: seq<T>, n: nat)
      requires Ok() && n <= Rows()
    {
      forall r: nat :: r < n ==> HasRow(buf, r, |cs|)
    }

    /** The whole matrix is in place. */
    ghost predicate HasAll(buf: seq<T>)
      requires Ok()
    {
      Rows() * Width() <= |buf| && forall r: nat :: r < Rows() ==> HasRow(buf, r, Width())
    }
  }

  /** Storing an entry of row `r` keeps the other rows and the earlier entries of the row. */
  lemma PutEntry<T>(s: Shape<T>, buf: seq<T>, r: nat, c: nat, v: T)
    requires s.Ok() && r < s.Rows() && c < s.Width() && s.Rows() * s.Width() <= |buf|
    ensures Cell(0, s.Width(), r, c) < |buf|
    ensures var b := buf[Cell(0, s.Width(), r, c) := v];
      && (v == UpdateEntry(s.f, s.matrix, s.k, s.m, s.ds, s.cs, r, c) ==> s.Has(b, r, c))
      && (forall r': nat, c': nat ::
        r' < s.Rows() && c' < s.Width() && !(r' == r && c' == c) && s.Has(buf, r', c') ==> s.Has(b, r', c'))
  {
    hide Cell, UpdateEntry;
    CellInRange(0, s.Width(), s.Rows(), r, c);
    CellsApart(0, s.Width(), r, c);
  }

  lemma Wide<T>(s: Shape<T>)
    ensures |s.cs| <= s.Width()
  {
  }

  method IdentityRows<T>(f: Symbols<T>, buf: array<T>, m: nat, ghost s: Shape<T>)
    requires s.Ok() && s.f == f && m == |s.cs| && s.Rows() * s.Width() <= buf.Length
    modifies buf
    ensures s.HasRows(buf[..], m)
  {
    hide Cell;
    Wide(s);
    for r := 0 to m
      invariant s.HasRows(buf[..], r)
    {
      for c := 0 to m
        invariant s.HasRows(buf[..], r) && s.HasRow(buf[..], r, c)
      {
        var v := if r == c then f.one else f.zero;
        PutEntry(s, buf[..], r, c, v);
        ghost var was := buf[..];
        buf[Cell(0, NOutputs(m), r, c)] := v;
        assert buf[..] == was[Cell(0, s.Width(), r, c) := v];
        KeepRows(s, was, buf[..], r, c, v);
      }
    }
  }

  lemma KeepRows<T>(s: Shape<T>, buf: seq<T>, b: seq<T>, r: nat, c: nat, v: T)
    requires s.Ok() && r < s.Rows() && c < |s.cs| && s.Rows() * s.Width() <= |buf| && Cell(0, s.Width(), r, c) < |buf|
    requires s.HasRows(buf, r) && s.HasRow(buf, r, c)
    requires b == buf[Cell(0, s.Width(), r, c) := v] && v == UpdateEntry(s.f, s.matrix, s.k, s.m, s.ds, s.cs, r, c)
    ensures s.HasRows(b, r) && s.HasRow(b, r, c + 1)
  {
    Wide(s);
    PutEntry(s, buf, r, c, v);
    forall r': nat | r' < r
      ensures s.HasRow(b, r', |s.cs|)
    {
      assert s.HasRow(buf, r', |s.cs|);
    }
  }

  /** Reads entry (i, j) of the encode matrix out of its section. */
  method EncodeEntry<T>(mat: array<T>, ghost matrix: seq<T>, k: nat, m: nat, i: nat, j: nat, ghost zero: T)
      returns (v: T)
    requires Registered(mat[..], matrix, k, m, zero) && k * m <= |matrix| && i < k && j < m
    ensures Holding(matrix, Cell(0, m, i, j), v)
  {
    hide Cell;
    var base, cols, idx := 0, NOutputs(m), j;
    if m > NUM_OUTPUTS {
      var sec := j / NUM_OUTPUTS;
      base, cols, idx := NUM_OUTPUTS * sec * k, NOutputs(Cols(sec, MultNum(m), m)), j % NUM_OUTPUTS;
    }
    CellInRange(0, m, k, i, j);
    ghost var s := j / NUM_OUTPUTS;
    SectionCols(m, s);
    assert SectionHolds(mat[..], matrix, k, m, zero, s);
    assert Stored(mat[..], NUM_OUTPUTS * s * k, k, Cols(s, MultNum(m), m), matrix, m, NUM_OUTPUTS * s, zero, i, idx);
    CellInRange(base, cols, k, i, idx);
    v := mat[Cell(base, cols, i, idx)];
  }

  /** Storing the same entry in two successive rows. */
  lemma KeepPair<T>(s: Shape<T>, buf: seq<T>, b: seq<T>, b': seq<T>, r: nat, c: nat, v: T)
    requires s.Ok() && r + 1 < s.Rows() && c < |s.cs| && s.Rows() * s.Width() <= |buf|
    requires Cell(0, s.Width(), r, c) < |buf| && Cell(0, s.Width(), r + 1, c) < |buf|
    requires s.HasRows(buf, r) && s.HasRow(buf, r, c) && s.HasRow(buf, r + 1, c)
    requires b == buf[Cell(0, s.Width(), r, c) := v] && b' == b[Cell(0, s.Width(), r + 1, c) := v]
    requires v == UpdateEntry(s.f, s.matrix, s.k, s.m, s.ds, s.cs, r, c)
    requires v == UpdateEntry(s.f, s.matrix, s.k, s.m, s.ds, s.cs, r + 1, c)
    ensures s.HasRows(b', r) && s.HasRow(b', r, c + 1) && s.HasRow(b', r + 1, c + 1)
  {
    hide Cell, UpdateEntry;
    Wide(s);
    PutEntry(s, buf, r, c, v);
    PutEntry(s, b, r + 1, c, v);
    hide s.Has;
    forall r': nat | r' < r
      ensures s.HasRow(b', r', |s.cs|)
    {
      assert s.HasRow(buf, r', |s.cs|);
      assert s.HasRow(b, r', |s.cs|);
    }
  }

  /** Data block `i` changed: its entries for the selected code blocks, in two rows. */
  method CopyRow<T>(mat: array<T>, buf: array<T>, k: nat, m: nat, codeUpdates: seq<bool>, start: nat, end: nat, i: nat,
                    uraw: nat, cols: nat, ghost s: Shape<T>)
    requires s.Ok() && s.k == k && s.m == m && mat != buf && cols == s.Width() && s.Rows() * s.Width() <= buf.Length
    requires Registered(mat[..], s.matrix, k, m, s.f.zero)
    requires |codeUpdates| == m && start <= end < m && s.cs == Sel(codeUpdates, start, end + 1)
    requires |s.cs| <= uraw && uraw + 1 < s.Rows() && s.ds[(uraw - |s.cs|) / 2] == i
    requires s.ds[(uraw + 1 - |s.cs|) / 2] == i
    requires s.HasRows(buf[..], uraw)
    modifies buf
    ensures s.HasRows(buf[..], uraw + 2)
  {
    hide Cell, Registered, s.Has, Sel;
    var ucol := 0;
    Wide(s);
    SelEmpty(codeUpdates, start);
    for j := 0 to m
      invariant ucol == |Sel(codeUpdates, start, Clip(j, start, end))| <= |s.cs|
      invariant s.HasRows(buf[..], uraw) && s.HasRow(buf[..], uraw, ucol) && s.HasRow(buf[..], uraw + 1, ucol)
      invariant mat[..] == old(mat[..])
    {
      if start <= j <= end {
        SelNext(codeUpdates, start, j, end + 1);
      }
      if j >= start && j <= end && codeUpdates[j] {
        var v := EncodeEntry(mat, s.matrix, k, m, i, j, s.f.zero);
        CellInRange(0, cols, s.Rows(), uraw, ucol);
        CellInRange(0, cols, s.Rows(), uraw + 1, ucol);
        ghost var b := buf[..];
        buf[Cell(0, cols, uraw, ucol)] := v;
        ghost var b1 := buf[..];
        buf[Cell(0, cols, uraw + 1, ucol)] := v;
        KeepPair(s, b, b1, buf[..], uraw, ucol, v);
        ucol := ucol + 1;
      }
    }
  }

  lemma ShapeSizes<T>(s: Shape<T>)
    ensures s.Rows() == |s.cs| + 2 * |s.ds| && s.Width() == NOutputs(|s.cs|)
  {
  }

  /** The rows of data block `i`, if it is updated. */
  lemma RowsNext<T>(s: Shape<T>, dataUpdates: seq<bool>, i: nat, uraw: nat)
    requires i < s.k == |dataUpdates| && s.ds == Sel(dataUpdates, 0, s.k)
    requires uraw == |s.cs| + 2 * |Sel(dataUpdates, 0, i)|
    ensures |Sel(dataUpdates, 0, i + 1)| == |Sel(dataUpdates, 0, i)| + if dataUpdates[i] then 1 else 0
    ensures |s.cs| + 2 * |Sel(dataUpdates, 0, i + 1)| <= s.Rows()
    ensures dataUpdates[i] ==> uraw + 1 < s.Rows() && (uraw + 1 - |s.cs|) / 2 < |s.ds|
    ensures dataUpdates[i] ==> s.ds[(uraw - |s.cs|) / 2] == i && s.ds[(uraw + 1 - |s.cs|) / 2] == i
  {
    hide Sel;
    SelNext(dataUpdates, 0, i, s.k);
  }

  method CopyRows<T>(mat: array<T>, buf: array<T>, k: nat, m: nat, numCode: nat, dataUpdates: seq<bool>,
                     codeUpdates: seq<bool>, start: nat, end: nat, ghost s: Shape<T>)
    requires s.Ok() && s.k == k && s.m == m && mat != buf && s.Rows() * s.Width() <= buf.Length
    requires Registered(mat[..], s.matrix, k, m, s.f.zero)
    requires |codeUpdates| == m && start <= end < m && s.cs == Sel(codeUpdates, start, end + 1) && numCode == |s.cs|
    requires |dataUpdates| == k && s.ds == Sel(dataUpdates, 0, k)
    requires s.HasRows(buf[..], numCode)
    modifies buf
    ensures s.HasRows(buf[..], s.Rows())
  {
    hide Cell, Registered, s.HasRow, s.HasRows, Sel, NOutputs, s.Ok, s.Rows, s.Width;
    var uraw := numCode;
    ShapeSizes(s);
    SelEmpty(dataUpdates, 0);
    for i := 0 to k
      invariant uraw == numCode + 2 * |Sel(dataUpdates, 0, i)| <= s.Rows()
      invariant s.HasRows(buf[..], uraw) && mat[..] == old(mat[..])
    {
      RowsNext(s, dataUpdates, i, uraw);
      if dataUpdates[i] {
        CopyRow(mat, buf, k, m, codeUpdates, start, end, i, uraw, NOutputs(numCode), s);
        uraw := uraw + 2;
      }
    }
  }

  /** Three outputs: the padding column is zeroed in every row. */
  method ZeroColumn<T>(f: Symbols<T>, buf: array<T>, rows: nat, ghost s: Shape<T>)
    requires s.Ok() && s.f == f && |s.cs| == 3 && rows == s.Rows() && s.Rows() * s.Width() <= buf.Length
    requires s.HasRows(buf[..], rows)
    modifies buf
    ensures s.HasAll(buf[..])
  {
    hide Cell, UpdateEntry, s.Has, s.HasRow;
    for r := 0 to rows
      invariant forall r': nat :: r' < rows ==> s.HasRow(buf[..], r', 3)
      invariant forall r': nat :: r' < r ==> s.Has(buf[..], r', 3)
    {
      PutEntry(s, buf[..], r, 3, f.zero);
      PadEntry(s, r);
      ghost var was := buf[..];
      buf[Cell(0, 4, r, 3)] := f.zero;
      assert buf[..] == was[Cell(0, s.Width(), r, 3) := f.zero];
      KeepColumn(s, was, buf[..], r);
    }
    PadAll(s, buf[..]);
  }

  lemma KeepColumn<T>(s: Shape<T>, buf: seq<T>, b: seq<T>, r: nat)
    requires s.Ok() && |s.cs| == 3 && r < s.Rows() && s.Rows() * s.Width() <= |buf| && Cell(0, 4, r, 3) < |buf|
    requires b == buf[Cell(0, 4, r, 3) := s.f.zero]
    requires forall r': nat :: r' < s.Rows() ==> s.HasRow(buf, r', 3)
    requires forall r': nat :: r' < r ==> s.Has(buf, r', 3)
    ensures forall r': nat :: r' < s.Rows() ==> s.HasRow(b, r', 3)
    ensures forall r': nat :: r' < r + 1 ==> s.Has(b, r', 3)
  {
    hide Cell, UpdateEntry, s.Has;
    PutEntry(s, buf, r, 3, s.f.zero);
    PadEntry(s, r);
    forall r': nat | r' < s.Rows()
      ensures s.HasRow(b, r', 3)
    {
      assert s.HasRow(buf, r', 3);
    }
  }

  lemma PadEntry<T>(s: Shape<T>, r: nat)
    requires s.Ok() && |s.cs| == 3 && r < s.Rows()
    ensures UpdateEntry(s.f, s.matrix, s.k, s.m, s.ds, s.cs, r, 3) == s.f.zero
  {
  }

  lemma PadAll<T>(s: Shape<T>, buf: seq<T>)
    requires s.Ok() && |s.cs| == 3 && s.Rows() * s.Width() <= |buf|
    requires forall r: nat :: r < s.Rows() ==> s.HasRow(buf, r, 3)
    requires forall r: nat :: r < s.Rows() ==> s.Has(buf, r, 3)
    ensures s.HasAll(buf)
  {
    hide s.Has;
    forall r: nat | r < s.Rows()
      ensures s.HasRow(buf, r, 4)
    {
      assert s.HasRow(buf, r, 3) && s.Has(buf, r, 3);
    }
  }

  /** Builds the update matrix of the code blocks selected in `[start, end]`. */
  method GetUpdateMat<T>(f: Symbols<T>, mat: array<T>, k: nat, m: nat, numData: nat, numCode: nat,
                         dataUpdates: seq<bool>, codeUpdates: seq<bool>, start: nat, end: nat, buf: array<T>,
                         ghost s: Shape<T>)
    requires s.Ok() && s.f == f && s.k == k && s.m == m && mat != buf && numData * NOutputs(numCode) <= buf.Length
    requires Registered(mat[..], s.matrix, k, m, f.zero)
    requires |codeUpdates| == m && start <= end < m && s.cs == Sel(codeUpdates, start, end + 1)
    requires |dataUpdates| == k && s.ds == Sel(dataUpdates, 0, k)
    requires numCode == |s.cs| && numData == s.Rows()
    modifies buf
    ensures s.HasAll(buf[..])
  {
    hide Cell, Registered, s.HasRow, Sel;
    IdentityRows(f, buf, numCode, s);
    CopyRows(mat, buf, k, m, numCode, dataUpdates, codeUpdates, start, end, s);
    if numCode == 3 {
      ZeroColumn(f, buf, numData, s);
    }
  }

  // ---------------------------------------------------------------- meaning

  /** The inputs of an update of code blocks `cs`: their old values, then old/new pairs. */
  ghost predicate Inputs<T>(s: Shape<T>, vec: seq<T>, olds: seq<T>, news: seq<T>)
    requires s.Ok()
  {
    && |olds| == |news| == s.k && |vec| == s.Rows()
    && (forall c :: 0 <= c < |s.cs| ==> vec[c] == Code(s.f, s.matrix, s.m, olds, s.cs[c]))
    && (forall u :: 0 <= u < |s.ds| ==> PairAt(vec, |s.cs|, u, olds[s.ds[u]], news[s.ds[u]]))
  }

  ghost predicate PairAt<T>(vec: seq<T>, base: nat, u: nat, a: T, b: T) {
    base + 2 * u + 1 < |vec| && vec[base + 2 * u] == a && vec[base + 2 * u + 1] == b
  }

  lemma {:induction false} IdentityDot<T(!new)>(s: Shape<T>, buf: seq<T>, vec: seq<T>, c: nat, n: nat)
    requires s.Ok() && CharTwo(s.f) && s.HasAll(buf) && |vec| == s.Rows() && n <= |s.cs| && c < |s.cs|
    ensures ColDot(s.f, buf, 0, s.Width(), c, vec, n) == if c < n then vec[c] else s.f.zero
  {
    hide Cell, CharTwo;
    if n > 0 {
      IdentityDot(s, buf, vec, c, n - 1);
      assert s.HasRow(buf, n - 1, s.Width());
      assert s.Has(buf, n - 1, c);
      TimesUnit(s.f, vec[n - 1]);
      if n - 1 == c { Cancel(s.f, s.f.zero, vec[c]); }
    }
  }

  lemma TimesUnit<T(!new)>(f: Symbols<T>, a: T)
    requires CharTwo(f)
    ensures f.mul(f.one, a) == a && f.mul(f.zero, a) == f.zero
    ensures forall b :: f.add(b, f.zero) == b
    ensures f.add(a, a) == f.zero
  {
  }

  lemma {:induction false} PairsDot<T(!new)>(s: Shape<T>, buf: seq<T>, vec: seq<T>, c: nat, flags: seq<bool>,
                                             olds: seq<T>, news: seq<T>, i: nat)
    requires s.Ok() && CharTwo(s.f) && s.HasAll(buf) && Inputs(s, vec, olds, news) && c < |s.cs| && i <= s.k
    requires |flags| == s.k && s.ds == Sel(flags, 0, s.k)
    requires forall x :: 0 <= x < s.k && !flags[x] ==> olds[x] == news[x]
    ensures |Sel(flags, 0, i)| <= |s.ds|
    ensures ColDot(s.f, buf, 0, s.Width(), c, vec, |s.cs| + 2 * |Sel(flags, 0, i)|) ==
            s.f.add(vec[c], s.f.add(s.Dot(c, olds, i), s.Dot(c, news, i)))
  {
    hide Cell, CharTwo, ColDot, s.HasAll, Inputs;
    InputSizes(s, vec, olds, news);
    SelConcat(flags, 0, i, s.k);
    if i == 0 {
      NothingDot(s, buf, vec, c, olds, news);
    } else {
      PairsDot(s, buf, vec, c, flags, olds, news, i - 1);
      SelNext(flags, 0, i - 1, s.k);
      PairStep(s, buf, vec, c, flags, olds, news, i - 1);
    }
  }

  lemma HasRoom<T>(s: Shape<T>, buf: seq<T>)
    requires s.Ok() && s.HasAll(buf)
    ensures s.Rows() * s.Width() <= |buf|
  {
  }

  lemma InputSizes<T>(s: Shape<T>, vec: seq<T>, olds: seq<T>, news: seq<T>)
    requires s.Ok() && Inputs(s, vec, olds, news)
    ensures |olds| == |news| == s.k && |vec| == s.Rows()
  {
  }

  lemma NothingDot<T(!new)>(s: Shape<T>, buf: seq<T>, vec: seq<T>, c: nat, olds: seq<T>, news: seq<T>)
    requires s.Ok() && CharTwo(s.f) && s.HasAll(buf) && |vec| == s.Rows() && c < |s.cs|
    ensures ColDot(s.f, buf, 0, s.Width(), c, vec, |s.cs|) ==
            s.f.add(vec[c], s.f.add(s.Dot(c, olds, 0), s.Dot(c, news, 0)))
  {
    hide Cell, CharTwo;
    IdentityDot(s, buf, vec, c, |s.cs|);
    TimesUnit(s.f, s.f.zero);
    TimesUnit(s.f, vec[c]);
  }

  /** Adding the terms of one changed block to both sides. */
  lemma AddChange<T(!new)>(f: Symbols<T>, v: T, a: T, b: T, p: T, q: T)
    requires CharTwo(f)
    ensures f.add(f.add(f.add(v, f.add(a, b)), p), q) == f.add(v, f.add(f.add(a, p), f.add(b, q)))
    ensures f.add(f.add(a, p), f.add(b, p)) == f.add(a, b)
  {
    AddPairs(f, a, b, p, q);
    AddPairs(f, a, b, p, p);
    var ab, pq := f.add(a, b), f.add(p, q);
    assert f.add(f.add(f.add(v, ab), p), q) == f.add(f.add(v, ab), pq) == f.add(v, f.add(ab, pq));
  }

  /** The two rows of a changed block contribute its old and its new term. */
  lemma PairRows<T>(s: Shape<T>, buf: seq<T>, vec: seq<T>, c: nat, u: nat, i: nat, olds: seq<T>, news: seq<T>)
    requires s.Ok() && s.HasAll(buf) && Inputs(s, vec, olds, news) && c < |s.cs| && u < |s.ds| && s.ds[u] == i
    ensures var e := Entry(s.f, s.matrix, Cell(0, s.m, i, s.cs[c]));
      ColDot(s.f, buf, 0, s.Width(), c, vec, |s.cs| + 2 * u + 2) ==
      s.f.add(s.f.add(ColDot(s.f, buf, 0, s.Width(), c, vec, |s.cs| + 2 * u), s.f.mul(e, olds[i])), s.f.mul(e, news[i]))
  {
    hide Cell;
    var r := |s.cs| + 2 * u;
    CellInRange(0, s.m, s.k, i, s.cs[c]);
    Wide(s);
    assert s.HasRow(buf, r, s.Width()) && s.HasRow(buf, r + 1, s.Width());
    assert s.Has(buf, r, c) && s.Has(buf, r + 1, c);
    assert PairAt(vec, |s.cs|, u, olds[i], news[i]);
  }

  lemma PairStep<T(!new)>(s: Shape<T>, buf: seq<T>, vec: seq<T>, c: nat, flags: seq<bool>, olds: seq<T>, news: seq<T>,
                          i: nat)
    requires s.Ok() && CharTwo(s.f) && s.HasAll(buf) && Inputs(s, vec, olds, news) && c < |s.cs| && i < s.k
    requires |flags| == s.k && s.ds == Sel(flags, 0, s.k) && (!flags[i] ==> olds[i] == news[i])
    requires |Sel(flags, 0, i + 1)| <= |s.ds| && |Sel(flags, 0, i)| <= |s.ds|
    requires ColDot(s.f, buf, 0, s.Width(), c, vec, |s.cs| + 2 * |Sel(flags, 0, i)|) ==
             s.f.add(vec[c], s.f.add(s.Dot(c, olds, i), s.Dot(c, news, i)))
    ensures ColDot(s.f, buf, 0, s.Width(), c, vec, |s.cs| + 2 * |Sel(flags, 0, i + 1)|) ==
            s.f.add(vec[c], s.f.add(s.Dot(c, olds, i + 1), s.Dot(c, news, i + 1)))
  {
    hide Cell, CharTwo, s.HasAll, Inputs;
    InputSizes(s, vec, olds, news);
    var e := Entry(s.f, s.matrix, Cell(0, s.m, i, s.cs[c]));
    var a, b := ColDot(s.f, s.matrix, 0, s.m, s.cs[c], olds, i), ColDot(s.f, s.matrix, 0, s.m, s.cs[c], news, i);
    AddChange(s.f, vec[c], a, b, s.f.mul(e, olds[i]), s.f.mul(e, news[i]));
    SelNext(flags, 0, i, s.k);
    if flags[i] {
      PairRows(s, buf, vec, c, |Sel(flags, 0, i)|, i, olds, news);
    }
  }

  lemma UpdateOutput<T(!new)>(s: Shape<T>, buf: seq<T>, vec: seq<T>, flags: seq<bool>, olds: seq<T>, news: seq<T>,
                              c: nat)
    requires s.Ok() && CharTwo(s.f) && s.HasAll(buf) && Inputs(s, vec, olds, news) && c < |s.cs|
    requires |flags| == s.k && s.ds == Sel(flags, 0, s.k)
    requires forall x :: 0 <= x < s.k && !flags[x] ==> olds[x] == news[x]
    ensures ColDot(s.f, buf, 0, s.Width(), c, vec, |vec|) == Code(s.f, s.matrix, s.m, news, s.cs[c])
  {
    hide ColDot, CharTwo, Sel, s.HasAll;
    PairsDot(s, buf, vec, c, flags, olds, news, s.k);
    Cancel(s.f, vec[c], ColDot(s.f, s.matrix, 0, s.m, s.cs[c], news, s.k));
  }

  /** Multiplying the update matrix with old codes and old/new pairs gives the codes of the new data. */
  lemma UpdateIsEncode<T(!new)>(s: Shape<T>, buf: seq<T>, vec: seq<T>, flags: seq<bool>, olds: seq<T>, news: seq<T>)
    requires s.Ok() && CharTwo(s.f) && s.HasAll(buf) && Inputs(s, vec, olds, news)
    requires |flags| == s.k && s.ds == Sel(flags, 0, s.k)
    requires forall x :: 0 <= x < s.k && !flags[x] ==> olds[x] == news[x]
    ensures |s.cs| <= s.Width() && |vec| * s.Width() <= |buf|
    ensures forall c :: 0 <= c < |s.cs| ==>
      VecCalc(s.f, buf, 0, s.Width(), vec, |s.cs|)[c] == Code(s.f, s.matrix, s.m, news, s.cs[c])
  {
    hide ColDot, CharTwo, Sel, s.HasAll, Code, Inputs;
    Wide(s);
    HasRoom(s, buf);
    InputSizes(s, vec, olds, news);
    forall c | 0 <= c < |s.cs|
      ensures VecCalc(s.f, buf, 0, s.Width(), vec, |s.cs|)[c] == Code(s.f, s.matrix, s.m, news, s.cs[c])
    {
      UpdateOutput(s, buf, vec, flags, olds, news, c);
    }
  }

  // ---------------------------------------------------------------- the update call

  /** Counting the changed data blocks; an update that is not smaller than an encode is refused. */
  method CheckUpdateParams(k: nat, m: nat, dataUpdates: seq<bool>) returns (ok: bool, num: nat)
    requires |dataUpdates| == k
    ensures num == |Sel(dataUpdates, 0, k)| && ok == (m + 2 * num < k)
  {
    num := 0;
    for i := 0 to k
      invariant num == |Sel(dataUpdates, 0, i)|
    {
      if dataUpdates[i] { num := num + 1; }
    }
    ok := m + 2 * num < k;
  }

  /** The caller's blocks: the selected old code blocks in order, then the old/new pairs. */
  ghost predicate Blocks<T>(f: Symbols<T>, matrix: seq<T>, k: nat, m: nat, blocks: seq<T>, dataUpdates: seq<bool>,
                            codeUpdates: seq<bool>, olds: seq<T>, news: seq<T>)
  {
    && k * m <= |matrix| && |dataUpdates| == |olds| == |news| == k && |codeUpdates| == m
    && (forall x :: 0 <= x < k && !dataUpdates[x] ==> olds[x] == news[x])
    && var ds, cs := Sel(dataUpdates, 0, k), Sel(codeUpdates, 0, m);
    && |blocks| == |cs| + 2 * |ds|
    && (forall x :: 0 <= x < |cs| ==> blocks[x] == Code(f, matrix, m, olds, cs[x]))
    && (forall u :: 0 <= u < |ds| ==> PairAt(blocks, |cs|, u, olds[ds[u]], news[ds[u]]))
  }

  /** The inputs of one section of the codes are those of the call, restricted to it. */
  lemma SectionInputs<T>(s: Shape<T>, blocks: seq<T>, dataUpdates: seq<bool>, codeUpdates: seq<bool>, olds: seq<T>,
                         news: seq<T>, start: nat, end: nat, from: nat, numCode: nat)
    requires Blocks(s.f, s.matrix, s.k, s.m, blocks, dataUpdates, codeUpdates, olds, news)
    requires start <= end < s.m && from == |Sel(codeUpdates, 0, start)| && numCode == |Sel(codeUpdates, 0, s.m)|
    requires s.ds == Sel(dataUpdates, 0, s.k) && s.cs == Sel(codeUpdates, start, end + 1) && |s.cs| <= NUM_OUTPUTS
    ensures s.Ok() && from + |s.cs| <= numCode <= |blocks|
    ensures Inputs(s, blocks[from..from + |s.cs|] + blocks[numCode..], olds, news)
  {
    hide Sel;
    SelConcat(codeUpdates, 0, end + 1, s.m);
    SelConcat(codeUpdates, 0, start, end + 1);
    var cs := Sel(codeUpdates, 0, s.m);
    var vec := blocks[from..from + |s.cs|] + blocks[numCode..];
    forall c | 0 <= c < |s.cs|
      ensures vec[c] == Code(s.f, s.matrix, s.m, olds, s.cs[c])
    {
      assert cs[from + c] == s.cs[c];
      assert blocks[from + c] == Code(s.f, s.matrix, s.m, olds, cs[from + c]);
    }
    forall u | 0 <= u < |s.ds|
      ensures PairAt(vec, |s.cs|, u, olds[s.ds[u]], news[s.ds[u]])
    {
      assert PairAt(blocks, |cs|, u, olds[s.ds[u]], news[s.ds[u]]);
    }
  }

  /** One launch: build the section's matrix in a buffer of the pool and multiply. */
  method UpdateSection<T(!new)>(f: Symbols<T>, mat: array<T>, k: nat, m: nat, vec: seq<T>, numCode: nat,
                                dataUpdates: seq<bool>, codeUpdates: seq<bool>, start: nat, end: nat, buf: array<T>,
                                ghost s: Shape<T>, ghost olds: seq<T>, ghost news: seq<T>)
      returns (out: seq<T>)
    requires s.Ok() && s.f == f && s.k == k && s.m == m && CharTwo(f) && mat != buf
    requires |vec| * NOutputs(numCode) <= buf.Length
    requires Registered(mat[..], s.matrix, k, m, f.zero)
    requires |codeUpdates| == m && start <= end < m && s.cs == Sel(codeUpdates, start, end + 1) && numCode == |s.cs|
    requires |dataUpdates| == k && s.ds == Sel(dataUpdates, 0, k)
    requires Inputs(s, vec, olds, news) && forall x :: 0 <= x < k && !dataUpdates[x] ==> olds[x] == news[x]
    modifies buf
    ensures |out| == |s.cs| && forall c :: 0 <= c < |s.cs| ==> out[c] == Code(f, s.matrix, m, news, s.cs[c])
  {
    hide Registered, s.HasAll, Sel, Code, CharTwo, VecCalc;
    GetUpdateMat(f, mat, k, m, |vec|, numCode, dataUpdates, codeUpdates, start, end, buf, s);
    UpdateIsEncode(s, buf[..], vec, dataUpdates, olds, news);
    out := VecCalc(f, buf[..], 0, NOutputs(numCode), vec, numCode);
  }

  /** A pool matrix has room for every update matrix that the call admits. */
  lemma PoolRoom(k: nat, m: nat, rows: nat, codes: nat)
    requires rows <= k && codes <= m
    ensures rows * NOutputs(codes) <= k * NOutputs(m)
  {
    Times(rows, k, NOutputs(codes));
    Times(NOutputs(codes), NOutputs(m), k);
  }

  /** The code blocks up to index `hi` have been recomputed. */
  ghost predicate Updated<T>(f: Symbols<T>, matrix: seq<T>, m: nat, codeUpdates: seq<bool>, news: seq<T>, codes: seq<T>,
                             hi: nat)
    requires |news| * m <= |matrix| && |codeUpdates| == m && hi <= m
  {
    && |codes| == |Sel(codeUpdates, 0, hi)|
    && forall x :: 0 <= x < |codes| ==> codes[x] == Code(f, matrix, m, news, Sel(codeUpdates, 0, hi)[x])
  }

  lemma UpdatedMore<T>(f: Symbols<T>, matrix: seq<T>, m: nat, codeUpdates: seq<bool>, news: seq<T>, codes: seq<T>,
                       lo: nat, hi: nat, out: seq<T>)
    requires |news| * m <= |matrix| && |codeUpdates| == m && lo <= hi <= m
    requires Updated(f, matrix, m, codeUpdates, news, codes, lo)
    requires |out| == |Sel(codeUpdates, lo, hi)|
    requires forall c :: 0 <= c < |out| ==> out[c] == Code(f, matrix, m, news, Sel(codeUpdates, lo, hi)[c])
    ensures Updated(f, matrix, m, codeUpdates, news, codes + out, hi)
  {
    hide Code, Sel;
    SelConcat(codeUpdates, 0, lo, hi);
  }

  /** One launch of the call: the `j` selected code blocks in `[start, end]`. */
  method LaunchSection<T(0, !new)>(f: Symbols<T>, mat: array<T>, ghost matrix: seq<T>, k: nat, m: nat, blocks: seq<T>,
                                   numCode: nat, dataUpdates: seq<bool>, codeUpdates: seq<bool>, ghost olds: seq<T>,
                                   ghost news: seq<T>, start: nat, end: nat, from: nat, j: nat,
                                   codes: seq<T>) returns (codes': seq<T>)
    requires CharTwo(f) && Blocks(f, matrix, k, m, blocks, dataUpdates, codeUpdates, olds, news)
    requires |news| * m <= |matrix| && |codeUpdates| == m && |dataUpdates| == k
    requires Registered(mat[..], matrix, k, m, f.zero) && m + 2 * |Sel(dataUpdates, 0, k)| < k
    requires numCode == |Sel(codeUpdates, 0, m)| && start <= end < m && from == |Sel(codeUpdates, 0, start)|
    requires j == |Sel(codeUpdates, start, end + 1)| <= NUM_OUTPUTS
    requires Updated(f, matrix, m, codeUpdates, news, codes, start)
    ensures Updated(f, matrix, m, codeUpdates, news, codes', end + 1)
  {
    hide Registered, Blocks, Updated, Sel, CharTwo, Code, Inputs, NOutputs;
    BlockSizes(f, matrix, k, m, blocks, dataUpdates, codeUpdates, olds, news);
    ghost var s := Shape(f, matrix, k, m, Sel(dataUpdates, 0, k), Sel(codeUpdates, start, end + 1));
    SectionInputs(s, blocks, dataUpdates, codeUpdates, olds, news, start, end, from, numCode);
    var vec := blocks[from..from + j] + blocks[numCode..];
    var buf := new T[k * NOutputs(m)];
    PoolRoom(k, m, |vec|, j);
    var out := UpdateSection(f, mat, k, m, vec, j, dataUpdates, codeUpdates, start, end, buf, s, olds, news);
    UpdatedMore(f, matrix, m, codeUpdates, news, codes, start, end + 1, out);
    codes' := codes + out;
  }

  /** More than four code blocks: one launch for every four of them, in index order. */
  method UpdateBigM<T(0, !new)>(f: Symbols<T>, mat: array<T>, ghost matrix: seq<T>, k: nat, m: nat, blocks: seq<T>,
                                numCode: nat, dataUpdates: seq<bool>, codeUpdates: seq<bool>, numUpdated: nat,
                                ghost olds: seq<T>, ghost news: seq<T>)
      returns (codes: seq<T>, launches: nat)
    requires CharTwo(f) && Blocks(f, matrix, k, m, blocks, dataUpdates, codeUpdates, olds, news)
    requires Registered(mat[..], matrix, k, m, f.zero)
    requires numCode == |Sel(codeUpdates, 0, m)| && numUpdated == |Sel(dataUpdates, 0, k)| && m + 2 * numUpdated < k
    ensures Updated(f, matrix, m, codeUpdates, news, codes, m)
    ensures launches == MultNum(numCode)
  {
    hide Registered, Blocks, Updated, Sel, CharTwo;
    codes, launches := [], 0;
    BlockSizes(f, matrix, k, m, blocks, dataUpdates, codeUpdates, olds, news);
    UpdatedStart(f, matrix, m, codeUpdates, news);
    var i, j, total, start := 0, 0, 0, 0;
    while i < m && total < numCode
      invariant start <= i <= m && j == |Sel(codeUpdates, start, i)| && j < NUM_OUTPUTS
      invariant total == |Sel(codeUpdates, 0, i)| && total - j == |Sel(codeUpdates, 0, start)|
      invariant total == numCode ==> j == 0
      invariant Updated(f, matrix, m, codeUpdates, news, codes, start)
      invariant total - j == NUM_OUTPUTS * launches
        || (total == numCode && NUM_OUTPUTS * (launches - 1) < numCode <= NUM_OUTPUTS * launches)
      invariant total <= numCode && mat[..] == old(mat[..])
      decreases m - i
    {
      SelNext(codeUpdates, 0, i, m);
      SelNext(codeUpdates, start, i, m);
      if codeUpdates[i] {
        j := j + 1;
        total := total + 1;
      }
      if j == NUM_OUTPUTS || total == numCode {
        codes := LaunchSection(f, mat, matrix, k, m, blocks, numCode, dataUpdates, codeUpdates, olds, news,
                               start, i, total - j, j, codes);
        launches := launches + 1;
        start := i + 1;
        SelEmpty(codeUpdates, start);
        j := 0;
      }
      i := i + 1;
    }
    UpdatedEnd(f, matrix, m, codeUpdates, news, codes, start);
  }

  lemma BlockSizes<T>(f: Symbols<T>, matrix: seq<T>, k: nat, m: nat, blocks: seq<T>, dataUpdates: seq<bool>,
                      codeUpdates: seq<bool>, olds: seq<T>, news: seq<T>)
    requires Blocks(f, matrix, k, m, blocks, dataUpdates, codeUpdates, olds, news)
    ensures k * m <= |matrix| && |dataUpdates| == |olds| == |news| == k && |codeUpdates| == m
    ensures |blocks| == |Sel(codeUpdates, 0, m)| + 2 * |Sel(dataUpdates, 0, k)| && |Sel(codeUpdates, 0, m)| <= m
    ensures forall x :: 0 <= x < k && !dataUpdates[x] ==> olds[x] == news[x]
    ensures Sel(codeUpdates, 0, 0) == []
  {
    SelCount(codeUpdates, 0, m);
  }

  lemma UpdatedStart<T>(f: Symbols<T>, matrix: seq<T>, m: nat, codeUpdates: seq<bool>, news: seq<T>)
    requires |news| * m <= |matrix| && |codeUpdates| == m
    ensures Updated(f, matrix, m, codeUpdates, news, [], 0)
  {
  }

  lemma UpdatedEnd<T>(f: Symbols<T>, matrix: seq<T>, m: nat, codeUpdates: seq<bool>, news: seq<T>, codes: seq<T>,
                      hi: nat)
    requires |news| * m <= |matrix| && |codeUpdates| == m && hi <= m
    requires Updated(f, matrix, m, codeUpdates, news, codes, hi)
    requires |Sel(codeUpdates, 0, hi)| == |Sel(codeUpdates, 0, m)|
    ensures Updated(f, matrix, m, codeUpdates, news, codes, m)
  {
    SelConcat(codeUpdates, 0, hi, m);
    assert Sel(codeUpdates, 0, hi) == Sel(codeUpdates, 0, m);
  }

  /** An accepted update leaves in the selected code blocks what encoding the new data would. */
  method UpdateAsync<T(0, !new)>(f: Symbols<T>, mat: array<T>, ghost matrix: seq<T>, k: nat, m: nat, blocks: seq<T>,
                                 numCode: nat, dataUpdates: seq<bool>, codeUpdates: seq<bool>, ghost olds: seq<T>,
                                 ghost news: seq<T>)
      returns (ok: bool, codes: seq<T>)
    requires CharTwo(f) && 0 < m && Blocks(f, matrix, k, m, blocks, dataUpdates, codeUpdates, olds, news)
    requires Registered(mat[..], matrix, k, m, f.zero) && numCode == |Sel(codeUpdates, 0, m)|
    ensures ok == (m + 2 * |Sel(dataUpdates, 0, k)| < k)
    ensures ok ==> Updated(f, matrix, m, codeUpdates, news, codes, m)
  {
    hide Registered, Blocks, Updated, Sel, CharTwo;
    codes := [];
    BlockSizes(f, matrix, k, m, blocks, dataUpdates, codeUpdates, olds, news);
    var num;
    ok, num := CheckUpdateParams(k, m, dataUpdates);
    if !ok { return; }
    if numCode <= NUM_OUTPUTS {
      UpdatedStart(f, matrix, m, codeUpdates, news);
      codes := LaunchSection(f, mat, matrix, k, m, blocks, numCode, dataUpdates, codeUpdates, olds, news,
                             0, m - 1, 0, numCode, []);
    } else {
      var launches;
      codes, launches := UpdateBigM(f, mat, matrix, k, m, blocks, numCode, dataUpdates, codeUpdates, num, olds, news);
    }
  }
}
