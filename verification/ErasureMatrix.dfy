/** The coefficient matrices of the erasure-coding offload.

    A calculation object holds an encode matrix of `k` rows and `m` columns. The
    hardware multiplies by at most four columns at a time, so the matrix is stored as
    sections of four columns, the last one narrower; a section of three columns is
    padded with a zero column. One value of `T` stands for one symbol of a block: the
    calculations work on every symbol position of the blocks alike.
 */
module ErasureMatrix {
  import Ring

  const NUM_OUTPUTS: nat := 4

  /** The symbols and their arithmetic, as far as the driver relies on it. */
  datatype Symbols<!T> = Symbols(zero: T, one: T, add: (T, T) -> T, mul: (T, T) -> T)

  /** Addition is that of a ring of characteristic two; zero and one multiply as usual. */
  ghost predicate CharTwo<T(!new)>(f: Symbols<T>)
  {
    && (forall a, b :: f.add(a, b) == f.add(b, a))
    && (forall a, b, c :: f.add(f.add(a, b), c) == f.add(a, f.add(b, c)))
    && (forall a :: f.add(a, f.zero) == a)
    && (forall a :: f.add(a, a) == f.zero)
    && (forall a :: f.mul(f.one, a) == a)
    && (forall a :: f.mul(f.zero, a) == f.zero)
  }

  /** A symbol of GF(2^8). */
  datatype Byte = Byte(bits: bv8)

  function Xor(a: Byte, b: Byte): Byte {
    Byte(a.bits ^ b.bits)
  }

  lemma XorLaws(a: Byte, b: Byte, c: Byte)
    ensures Xor(a, b) == Xor(b, a) && Xor(Xor(a, b), c) == Xor(a, Xor(b, c))
    ensures Xor(a, Byte(0)) == a && Xor(a, a) == Byte(0)
  {
  }

  /** Bytes under exclusive or, with any multiplication of GF(2^8), are such symbols. */
  lemma ByteSymbols(mul: (Byte, Byte) -> Byte)
    requires forall a :: mul(Byte(1), a) == a && mul(Byte(0), a) == Byte(0)
    ensures CharTwo(Symbols(Byte(0), Byte(1), Xor, mul))
  {
    hide Xor;
    forall a, b, c
      ensures Xor(Xor(a, b), c) == Xor(a, Xor(b, c))
    {
      XorLaws(a, b, c);
    }
    forall a, b
      ensures Xor(a, b) == Xor(b, a) && Xor(a, Byte(0)) == a && Xor(a, a) == Byte(0)
    {
      XorLaws(a, b, a);
    }
  }

  lemma Cancel<T(!new)>(f: Symbols<T>, a: T, b: T)
    requires CharTwo(f)
    ensures f.add(a, f.add(a, b)) == b
    ensures f.add(f.zero, b) == b
  {
    assert f.add(f.add(a, a), b) == f.add(a, f.add(a, b));
    assert f.add(f.zero, b) == f.add(b, f.zero);
  }

  lemma AddPairs<T(!new)>(f: Symbols<T>, a: T, b: T, p: T, q: T)
    requires CharTwo(f)
    ensures f.add(f.add(a, p), f.add(b, q)) == f.add(f.add(a, b), f.add(p, q))
  {
    assert f.add(f.add(a, p), f.add(b, q)) == f.add(a, f.add(p, f.add(b, q)));
    assert f.add(p, f.add(b, q)) == f.add(f.add(p, b), q) == f.add(f.add(b, p), q) == f.add(b, f.add(p, q));
    assert f.add(f.add(a, b), f.add(p, q)) == f.add(a, f.add(b, f.add(p, q)));
  }

  // ---------------------------------------------------------------- layout

  function NOutputs(m: nat): nat {
    if m == 3 then NUM_OUTPUTS else m
  }

  function MultNum(m: nat): nat {
    (m + NUM_OUTPUTS - 1) / NUM_OUTPUTS
  }

  function LastCols(m: nat): nat {
    if m % NUM_OUTPUTS != 0 then m % NUM_OUTPUTS else NUM_OUTPUTS
  }

  function Cols(idx: nat, num: nat, m: nat): nat {
    if idx == num - 1 then LastCols(m) else NUM_OUTPUTS
  }

  /** The sections cut the `m` columns into consecutive pieces of four, the rest last. */
  lemma SectionCols(m: nat, s: nat)
    requires s < MultNum(m)
    ensures Cols(s, MultNum(m), m) == if m - NUM_OUTPUTS * s < NUM_OUTPUTS then m - NUM_OUTPUTS * s else NUM_OUTPUTS
    ensures 0 < Cols(s, MultNum(m), m) <= NUM_OUTPUTS
  {
  }

  /** Place of row `i`, column `j` in a row-major matrix of `cols` columns at `base`. */
  function Cell(base: nat, cols: nat, i: nat, j: nat): nat {
    base + i * cols + j
  }

  lemma CellInRange(base: nat, cols: nat, rows: nat, i: nat, j: nat)
    requires i < rows && j < cols
    ensures base <= Cell(base, cols, i, j) < base + rows * cols
  {
    Times(i + 1, rows, cols);
    Ring.MulSucc(i, cols);
  }

  lemma Times(a: nat, b: nat, c: nat)
    requires a <= b
    ensures a * c <= b * c
  {
    assert b * c == a * c + (b - a) * c;
  }

  lemma CellsApart(base: nat, cols: nat, i: nat, j: nat)
    requires j < cols
    ensures forall i': nat, j': nat :: j' < cols && Cell(base, cols, i', j') == Cell(base, cols, i, j) ==>
      i' == i && j' == j
  {
    forall i': nat, j': nat | j' < cols && Cell(base, cols, i', j') == Cell(base, cols, i, j)
      ensures i' == i && j' == j
    {
      assert (i' - i) * cols == i' * cols - i * cols == j - j';
      Ring.SmallMultiple(i' - i, cols);
    }
  }

  /** The buffer holds `cm` columns of `matrix` (which has `m`), from column `off` on, in `k` rows,
      with the padding column of a three-column section zero. */
  ghost predicate Holds<T>(buf: seq<T>, base: nat, k: nat, cm: nat, matrix: seq<T>, m: nat, off: nat, zero: T)
  {
    && off + cm <= m && k * m <= |matrix| && base + k * NOutputs(cm) <= |buf|
    && forall i: nat, j: nat :: i < k && j < NOutputs(cm) ==>
      Stored(buf, base, k, cm, matrix, m, off, zero, i, j)
  }

  ghost predicate Stored<T>(buf: seq<T>, base: nat, k: nat, cm: nat, matrix: seq<T>, m: nat, off: nat, zero: T, i: nat,
                            j: nat)
    requires off + cm <= m && k * m <= |matrix| && base + k * NOutputs(cm) <= |buf| && i < k && j < NOutputs(cm)
  {
    CellInRange(base, NOutputs(cm), k, i, j);
    buf[Cell(base, NOutputs(cm), i, j)] ==
    if j < cm then CellInRange(0, m, k, i, off + j); matrix[Cell(0, m, i, off + j)] else zero
  }

  /** Every section of the encode matrix is in place, section `s` at `4 * s * k`. */
  ghost predicate Registered<T>(mat: seq<T>, matrix: seq<T>, k: nat, m: nat, zero: T)
  {
    RegisteredTo(mat, matrix, k, m, zero, MultNum(m))
  }

  ghost predicate RegisteredTo<T>(mat: seq<T>, matrix: seq<T>, k: nat, m: nat, zero: T, n: nat)
  {
    forall s: nat :: s < n ==> SectionHolds(mat, matrix, k, m, zero, s)
  }

  ghost predicate SectionHolds<T>(mat: seq<T>, matrix: seq<T>, k: nat, m: nat, zero: T, s: nat)
  {
    Holds(mat, NUM_OUTPUTS * s * k, k, Cols(s, MultNum(m), m), matrix, m, NUM_OUTPUTS * s, zero)
  }

  // ---------------------------------------------------------------- registering the encode matrix

  /** Fills one section; the buffer comes zeroed, and the padding column is skipped. */
  method FillSection<T>(mat: array<T>, base: nat, k: nat, cm: nat, matrix: seq<T>, m: nat, off: nat, ghost zero: T)
    requires off + cm <= m && 0 < cm <= NUM_OUTPUTS && k * m <= |matrix| && base + k * NOutputs(cm) <= mat.Length
    requires forall x :: base <= x < base + k * NOutputs(cm) ==> mat[x] == zero
    modifies mat
    ensures Holds(mat[..], base, k, cm, matrix, m, off, zero)
    ensures forall x :: 0 <= x < mat.Length && !(base <= x < base + k * NOutputs(cm)) ==> mat[x] == old(mat[x])
  {
    var cols := NOutputs(cm);
    ghost var b0 := mat[..];
    FillStart(b0, base, k, cm, matrix, m, off, zero);
    for i := 0 to k
      invariant Filling(b0, mat[..], base, k, cm, matrix, m, off, zero, i, 0)
    {
      for j := 0 to cols
        invariant Filling(b0, mat[..], base, k, cm, matrix, m, off, zero, i, j)
      {
        FillStep(b0, mat[..], base, k, cm, matrix, m, off, zero, i, j);
        if j == 3 && cm == 3 {
        } else {
          mat[Cell(base, cols, i, j)] := matrix[Cell(0, m, i, off + j)];
        }
      }
      FillRow(b0, mat[..], base, k, cm, matrix, m, off, zero, i);
    }
  }

  /** The cells before row `i`, column `j` are stored, the others still zero, and nothing else has changed. */
  ghost predicate Filling<T>(b0: seq<T>, buf: seq<T>, base: nat, k: nat, cm: nat, matrix: seq<T>, m: nat, off: nat,
                             zero: T, i: nat, j: nat)
  {
    && |buf| == |b0| && off + cm <= m && k * m <= |matrix| && base + k * NOutputs(cm) <= |buf|
    && (forall x :: 0 <= x < |buf| && !(base <= x < base + k * NOutputs(cm)) ==> buf[x] == b0[x])
    && (forall i': nat, j': nat :: i' < k && j' < NOutputs(cm) && (i' < i || (i' == i && j' < j)) ==>
      Stored(buf, base, k, cm, matrix, m, off, zero, i', j'))
    && (forall i': nat, j': nat :: i' < k && j' < NOutputs(cm) && (i' > i || (i' == i && j' >= j)) ==>
      Holding(buf, Cell(base, NOutputs(cm), i', j'), zero))
  }

  ghost predicate Holding<T>(buf: seq<T>, x: nat, v: T) {
    x < |buf| && buf[x] == v
  }

  lemma FillStart<T>(buf: seq<T>, base: nat, k: nat, cm: nat, matrix: seq<T>, m: nat, off: nat, zero: T)
    requires off + cm <= m && k * m <= |matrix| && base + k * NOutputs(cm) <= |buf|
    requires forall x :: base <= x < base + k * NOutputs(cm) ==> buf[x] == zero
    ensures Filling(buf, buf, base, k, cm, matrix, m, off, zero, 0, 0)
  {
    hide Cell, Stored;
    forall i: nat, j: nat | i < k && j < NOutputs(cm)
      ensures Holding(buf, Cell(base, NOutputs(cm), i, j), zero)
    {
      CellInRange(base, NOutputs(cm), k, i, j);
    }
  }

  lemma FillStep<T>(b0: seq<T>, buf: seq<T>, base: nat, k: nat, cm: nat, matrix: seq<T>, m: nat, off: nat, zero: T,
                    i: nat, j: nat)
    requires 0 < cm <= NUM_OUTPUTS && i < k && j < NOutputs(cm)
    requires Filling(b0, buf, base, k, cm, matrix, m, off, zero, i, j)
    ensures Cell(base, NOutputs(cm), i, j) < |buf|
    ensures j < cm ==> Cell(0, m, i, off + j) < |matrix|
    ensures j < cm ==>
      var b := buf[Cell(base, NOutputs(cm), i, j) := matrix[Cell(0, m, i, off + j)]];
      Filling(b0, b, base, k, cm, matrix, m, off, zero, i, j + 1)
    ensures j >= cm ==> Filling(b0, buf, base, k, cm, matrix, m, off, zero, i, j + 1)
  {
    hide Cell;
    var cols := NOutputs(cm);
    CellInRange(base, cols, k, i, j);
    var x := Cell(base, cols, i, j);
    assert Holding(buf, x, zero);
    if j < cm {
      CellInRange(0, m, k, i, off + j);
      var v := matrix[Cell(0, m, i, off + j)];
      assert Stored(buf[x := v], base, k, cm, matrix, m, off, zero, i, j);
      forall i': nat, j': nat | i' < k && j' < cols && !(i' == i && j' == j)
        ensures (i' < i || (i' == i && j' < j)) ==> Stored(buf[x := v], base, k, cm, matrix, m, off, zero, i', j')
        ensures (i' > i || (i' == i && j' >= j)) ==> Holding(buf[x := v], Cell(base, cols, i', j'), zero)
      {
        FillOther(buf, base, k, cm, matrix, m, off, zero, i, j, i', j', v);
      }
    } else {
      assert Stored(buf, base, k, cm, matrix, m, off, zero, i, j);
    }
  }

  lemma FillOther<T>(buf: seq<T>, base: nat, k: nat, cm: nat, matrix: seq<T>, m: nat, off: nat, zero: T, i: nat, j: nat,
                     i': nat, j': nat, v: T)
    requires off + cm <= m && k * m <= |matrix| && base + k * NOutputs(cm) <= |buf|
    requires i < k && j < NOutputs(cm) && i' < k && j' < NOutputs(cm) && !(i' == i && j' == j)
    ensures Cell(base, NOutputs(cm), i, j) < |buf|
    ensures var b := buf[Cell(base, NOutputs(cm), i, j) := v];
      && Stored(b, base, k, cm, matrix, m, off, zero, i', j') == Stored(buf, base, k, cm, matrix, m, off, zero, i', j')
      && Holding(b, Cell(base, NOutputs(cm), i', j'), zero) == Holding(buf, Cell(base, NOutputs(cm), i', j'), zero)
  {
    hide Cell;
    CellInRange(base, NOutputs(cm), k, i, j);
    CellInRange(base, NOutputs(cm), k, i', j');
    CellsApart(base, NOutputs(cm), i, j);
  }

  lemma FillRow<T>(b0: seq<T>, buf: seq<T>, base: nat, k: nat, cm: nat, matrix: seq<T>, m: nat, off: nat, zero: T,
                   i: nat)
    requires Filling(b0, buf, base, k, cm, matrix, m, off, zero, i, NOutputs(cm))
    ensures Filling(b0, buf, base, k, cm, matrix, m, off, zero, i + 1, 0)
  {
    hide Cell, Stored, Holding;
  }

  lemma SectionRoom(k: nat, m: nat, s: nat, total: nat)
    requires s < MultNum(m) && total == ((m / NUM_OUTPUTS) * NUM_OUTPUTS + NOutputs(LastCols(m))) * k
    ensures NUM_OUTPUTS * s * k + k * NOutputs(Cols(s, MultNum(m), m)) <= total
    ensures NUM_OUTPUTS * s * k + k * NOutputs(Cols(s, MultNum(m), m)) <= NUM_OUTPUTS * (s + 1) * k
  {
    SectionCols(m, s);
    var c := NOutputs(Cols(s, MultNum(m), m));
    assert (NUM_OUTPUTS * s + c) * k == NUM_OUTPUTS * s * k + k * c;
    assert NUM_OUTPUTS * s + c <= (m / NUM_OUTPUTS) * NUM_OUTPUTS + NOutputs(LastCols(m));
    Times(NUM_OUTPUTS * s + c, (m / NUM_OUTPUTS) * NUM_OUTPUTS + NOutputs(LastCols(m)), k);
    Times(NUM_OUTPUTS * s + c, NUM_OUTPUTS * (s + 1), k);
  }

  /** Writing beyond a section leaves it as it was. */
  lemma SectionKept<T>(mat: seq<T>, mat': seq<T>, matrix: seq<T>, k: nat, m: nat, zero: T, s: nat, lo: nat)
    requires SectionHolds(mat, matrix, k, m, zero, s) && |mat'| == |mat|
    requires NUM_OUTPUTS * s * k + k * NOutputs(Cols(s, MultNum(m), m)) <= lo
    requires forall x :: 0 <= x < lo && x < |mat| ==> mat'[x] == mat[x]
    ensures SectionHolds(mat', matrix, k, m, zero, s)
  {
    hide Cell;
    var base, cm := NUM_OUTPUTS * s * k, Cols(s, MultNum(m), m);
    forall i: nat, j: nat | i < k && j < NOutputs(cm)
      ensures Stored(mat', base, k, cm, matrix, m, NUM_OUTPUTS * s, zero, i, j)
    {
      CellInRange(base, NOutputs(cm), k, i, j);
      assert Stored(mat, base, k, cm, matrix, m, NUM_OUTPUTS * s, zero, i, j);
    }
  }

  /** One more section. */
  lemma RegisteredMore<T>(was: seq<T>, mat: seq<T>, matrix: seq<T>, k: nat, m: nat, zero: T, n: nat)
    requires RegisteredTo(was, matrix, k, m, zero, n) && n < MultNum(m)
    requires |mat| == |was| == ((m / NUM_OUTPUTS) * NUM_OUTPUTS + NOutputs(LastCols(m))) * k
    requires Holds(mat, NUM_OUTPUTS * n * k, k, Cols(n, MultNum(m), m), matrix, m, NUM_OUTPUTS * n, zero)
    requires forall x :: 0 <= x < |mat| && x < NUM_OUTPUTS * n * k ==> mat[x] == was[x]
    ensures RegisteredTo(mat, matrix, k, m, zero, n + 1)
  {
    hide Holds, Cols, MultNum, NOutputs, LastCols;
    forall s: nat | s < n
      ensures SectionHolds(mat, matrix, k, m, zero, s)
    {
      SectionRoom(k, m, s, |mat|);
      Times(NUM_OUTPUTS * (s + 1), NUM_OUTPUTS * n, k);
      SectionKept(was, mat, matrix, k, m, zero, s, NUM_OUTPUTS * n * k);
    }
  }

  method RegEncodeMatrix<T(0)>(matrix: seq<T>, k: nat, m: nat, zero: T) returns (mat: array<T>)
    requires k * m <= |matrix|
    ensures Registered(mat[..], matrix, k, m, zero) && fresh(mat)
  {
    var cols := (m / NUM_OUTPUTS) * NUM_OUTPUTS + NOutputs(LastCols(m));
    mat := new T[cols * k](_ => zero);
    for mi := 0 to MultNum(m)
      invariant RegisteredTo(mat[..], matrix, k, m, zero, mi)
      invariant forall x :: NUM_OUTPUTS * mi * k <= x < mat.Length ==> mat[x] == zero
      invariant fresh(mat)
    {
      hide *;
      SectionRoom(k, m, mi, mat.Length);
      SectionCols(m, mi);
      ghost var was := mat[..];
      FillSection(mat, NUM_OUTPUTS * mi * k, k, Cols(mi, MultNum(m), m), matrix, m, NUM_OUTPUTS * mi, zero);
      RegisteredMore(was, mat[..], matrix, k, m, zero, mi);
    }
  }
}
