/** What the vector-calculation hardware computes, and encoding with a matrix cut into sections. */
module ErasureCalc {
  import opened ErasureMatrix

  /** Symbol `x` of a buffer; launches stay inside their buffers. */
  function Entry<T>(f: Symbols<T>, buf: seq<T>, x: nat): T {
    if x < |buf| then buf[x] else f.zero
  }

  /** Column `c` of the matrix at `base` times the first `n` inputs. */
  function ColDot<T>(f: Symbols<T>, buf: seq<T>, base: nat, cols: nat, c: nat, vec: seq<T>, n: nat): T
    requires n <= |vec|
  {
    if n == 0 then f.zero else
      f.add(ColDot(f, buf, base, cols, c, vec, n - 1), f.mul(Entry(f, buf, Cell(base, cols, n - 1, c)), vec[n - 1]))
  }

  /** The outputs of one launch: the first `m` columns, as many rows as inputs. */
  function VecCalc<T>(f: Symbols<T>, buf: seq<T>, base: nat, cols: nat, vec: seq<T>, m: nat): (r: seq<T>)
    requires m <= cols && base + |vec| * cols <= |buf|
    ensures |r| == m
    ensures forall c: nat :: c < m ==> r[c] == ColDot(f, buf, base, cols, c, vec, |vec|)
  {
    if m == 0 then [] else VecCalc(f, buf, base, cols, vec, m - 1) + [ColDot(f, buf, base, cols, m - 1, vec, |vec|)]
  }

  /** Code block `j` of the data: column `j` of the caller's matrix times the data. */
  function Code<T>(f: Symbols<T>, matrix: seq<T>, m: nat, data: seq<T>, j: nat): T
    requires j < m && |data| * m <= |matrix|
  {
    ColDot(f, matrix, 0, m, j, data, |data|)
  }

  /** A stored section multiplies like the columns it was taken from. */
  lemma {:induction false} SectionDot<T>(f: Symbols<T>, buf: seq<T>, base: nat, k: nat, cm: nat, matrix: seq<T>, m: nat,
                                         off: nat, c: nat, vec: seq<T>, n: nat)
    requires Holds(buf, base, k, cm, matrix, m, off, f.zero) && c < cm && n <= k && n <= |vec|
    ensures ColDot(f, buf, base, NOutputs(cm), c, vec, n) == ColDot(f, matrix, 0, m, off + c, vec, n)
  {
    hide Cell;
    if n > 0 {
      CellInRange(base, NOutputs(cm), k, n - 1, c);
      CellInRange(0, m, k, n - 1, off + c);
      SectionDot(f, buf, base, k, cm, matrix, m, off, c, vec, n - 1);
      assert Stored(buf, base, k, cm, matrix, m, off, f.zero, n - 1, c);
    }
  }

  /** The padding output of a three-column section is zero. */
  lemma {:induction false} PaddingDot<T(!new)>(f: Symbols<T>, buf: seq<T>, base: nat, k: nat, matrix: seq<T>, m: nat,
                                               off: nat, vec: seq<T>, n: nat)
    requires CharTwo(f) && Holds(buf, base, k, 3, matrix, m, off, f.zero) && n <= k && n <= |vec|
    ensures ColDot(f, buf, base, 4, 3, vec, n) == f.zero
  {
    hide Cell;
    if n > 0 {
      PaddingDot(f, buf, base, k, matrix, m, off, vec, n - 1);
      CellInRange(base, 4, k, n - 1, 3);
      assert Stored(buf, base, k, 3, matrix, m, off, f.zero, n - 1, 3);
    }
  }

  /** Encoding one section at a time produces the code blocks of the whole matrix. */
  method EncodeBigM<T>(f: Symbols<T>, mat: array<T>, ghost matrix: seq<T>, k: nat, m: nat, data: seq<T>)
      returns (code: seq<T>)
    requires |data| == k && k * m <= |matrix| && Registered(mat[..], matrix, k, m, f.zero)
    ensures |code| == m
    ensures forall j: nat :: j < m ==> code[j] == Code(f, matrix, m, data, j)
  {
    code := [];
    for i := 0 to MultNum(m)
      invariant |code| == if NUM_OUTPUTS * i < m then NUM_OUTPUTS * i else m
      invariant forall j: nat :: j < |code| ==> code[j] == Code(f, matrix, m, data, j)
    {
      hide Holds, ColDot;
      var base, cm := NUM_OUTPUTS * i * k, Cols(i, MultNum(m), m);
      SectionCols(m, i);
      assert SectionHolds(mat[..], matrix, k, m, f.zero, i);
      Section(f, mat[..], base, k, cm, matrix, m, NUM_OUTPUTS * i, data);
      code := code + VecCalc(f, mat[..], base, NOutputs(cm), data, cm);
    }
  }

  /** One launch computes the code blocks of its section. */
  lemma Section<T>(f: Symbols<T>, buf: seq<T>, base: nat, k: nat, cm: nat, matrix: seq<T>, m: nat, off: nat,
                   data: seq<T>)
    requires Holds(buf, base, k, cm, matrix, m, off, f.zero) && |data| <= k
    ensures off + cm <= m && cm <= NOutputs(cm) && base + |data| * NOutputs(cm) <= |buf| && |data| * m <= |matrix|
    ensures forall c: nat :: c < cm ==>
      VecCalc(f, buf, base, NOutputs(cm), data, cm)[c] == Code(f, matrix, m, data, off + c)
  {
    Times(|data|, k, m);
    Times(|data|, k, NOutputs(cm));
    forall c: nat | c < cm
      ensures VecCalc(f, buf, base, NOutputs(cm), data, cm)[c] == Code(f, matrix, m, data, off + c)
    {
      SectionDot(f, buf, base, k, cm, matrix, m, off, c, data, |data|);
    }
  }
}
