/** Recovering erased blocks, at most four in one launch. */
module ErasureDecode {
  import opened ErasureMatrix
  import opened ErasureCalc
  import opened Selection

  ghost function Negated(flags: seq<bool>): (r: seq<bool>)
    ensures |r| == |flags| && forall i :: 0 <= i < |r| ==> r[i] == !flags[i]
  {
    seq(|flags|, i requires 0 <= i < |flags| => !flags[i])
  }

  /** The blocks decoding starts from: the first `k` that are not erased. */
  ghost function Survivors(erasures: seq<bool>, k: nat): (r: seq<nat>)
    ensures |r| <= k
  {
    var s := Sel(Negated(erasures), 0, |erasures|);
    if |s| <= k then s else s[..k]
  }

  /** With at most `m` of `k + m` blocks erased, `k` survive. */
  lemma EnoughSurvivors(erasures: seq<bool>, k: nat, m: nat)
    requires |erasures| == k + m && |Sel(erasures, 0, k + m)| <= m
    ensures |Survivors(erasures, k)| == k
  {
    SelSplit(erasures, k + m);
  }

  lemma {:induction false} SelSplit(flags: seq<bool>, n: nat)
    requires n <= |flags|
    ensures |Sel(flags, 0, n)| + |Sel(Negated(flags), 0, n)| == n
  {
    if n > 0 { SelSplit(flags, n - 1); }
  }

  ghost predicate Sized(lens: seq<nat>, idx: seq<nat>, blockSize: nat) {
    forall x :: 0 <= x < |idx| ==> idx[x] < |lens| && lens[idx[x]] == blockSize
  }

  /** Whether a section of the erasures can be launched: it is not too wide and all its blocks have the block size. */
  ghost predicate Accepts(erasures: seq<bool>, k: nat, lens: seq<nat>, blockSize: nat, start: nat, end: nat)
    requires end < |erasures|
  {
    && |Sel(erasures, start, end + 1)| <= NUM_OUTPUTS
    && Sized(lens, Sel(erasures, start, end + 1), blockSize) && Sized(lens, Survivors(erasures, k), blockSize)
  }

  /** Maps the erased blocks of a section to outputs and the first `k` survivors to inputs. */
  method SetDecodeKlms(erasures: seq<bool>, k: nat, lens: seq<nat>, blockSize: nat, start: nat, end: nat)
      returns (ok: bool, ins: seq<nat>, outs: seq<nat>)
    requires |lens| == |erasures| && start <= end < |erasures|
    ensures ok <==> Accepts(erasures, k, lens, blockSize, start, end)
    ensures ok ==> ins == Survivors(erasures, k) && outs == Sel(erasures, start, end + 1)
  {
    hide Accepts, Mapping, Survivors;
    ok, ins, outs := true, [], [];
    MapStart(erasures, k, lens, blockSize, start, end);
    for i := 0 to |erasures|
      invariant Mapping(erasures, k, lens, blockSize, start, end, i, ins, outs)
    {
      MapStep(erasures, k, lens, blockSize, start, end, i, ins, outs);
      if erasures[i] && start <= i && i <= end {
        if lens[i] != blockSize {
          return false, ins, outs;
        }
        outs := outs + [i];
        if |outs| > NUM_OUTPUTS {
          return false, ins, outs;
        }
      } else if !erasures[i] && |ins| < k {
        if lens[i] != blockSize {
          return false, ins, outs;
        }
        ins := ins + [i];
      }
    }
    MapEnd(erasures, k, lens, blockSize, start, end, ins, outs);
  }

  ghost predicate Mapping(erasures: seq<bool>, k: nat, lens: seq<nat>, blockSize: nat, start: nat, end: nat, i: nat,
                          ins: seq<nat>, outs: seq<nat>)
    requires |lens| == |erasures| && start <= end < |erasures| && i <= |erasures|
  {
    && outs == Sel(erasures, start, Clip(i, start, end)) && |outs| <= NUM_OUTPUTS && Sized(lens, outs, blockSize)
    && ins == First(Sel(Negated(erasures), 0, i), k) && Sized(lens, ins, blockSize)
  }

  lemma MapStart(erasures: seq<bool>, k: nat, lens: seq<nat>, blockSize: nat, start: nat, end: nat)
    requires |lens| == |erasures| && start <= end < |erasures|
    ensures Mapping(erasures, k, lens, blockSize, start, end, 0, [], [])
  {
  }

  lemma MapEnd(erasures: seq<bool>, k: nat, lens: seq<nat>, blockSize: nat, start: nat, end: nat, ins: seq<nat>,
               outs: seq<nat>)
    requires |lens| == |erasures| && start <= end < |erasures|
    requires Mapping(erasures, k, lens, blockSize, start, end, |erasures|, ins, outs)
    ensures Accepts(erasures, k, lens, blockSize, start, end)
    ensures ins == Survivors(erasures, k) && outs == Sel(erasures, start, end + 1)
  {
  }

  lemma MapStep(erasures: seq<bool>, k: nat, lens: seq<nat>, blockSize: nat, start: nat, end: nat, i: nat,
                ins: seq<nat>, outs: seq<nat>)
    requires |lens| == |erasures| && start <= end < |erasures| && i < |erasures|
    requires Mapping(erasures, k, lens, blockSize, start, end, i, ins, outs)
    ensures |outs| <= NUM_OUTPUTS
    ensures var out := erasures[i] && start <= i <= end;
            var in_ := !out && !erasures[i] && |ins| < k;
      if (out || in_) && lens[i] != blockSize then !Accepts(erasures, k, lens, blockSize, start, end)
      else if out && |outs| == NUM_OUTPUTS then !Accepts(erasures, k, lens, blockSize, start, end)
      else Mapping(erasures, k, lens, blockSize, start, end, i + 1, if in_ then ins + [i] else ins,
                   if out then outs + [i] else outs)
  {
    hide Survivors, Accepts, Sel;
    SelClip(erasures, start, end, i);
    SelStep(Negated(erasures), 0, i);
    if erasures[i] && start <= i <= end {
      MapOut(erasures, k, lens, blockSize, start, end, i);
    } else if !erasures[i] && |ins| < k {
      MapIn(erasures, k, lens, blockSize, start, end, i);
    }
  }

  /** An erased block of the section is among its outputs. */
  lemma MapOut(erasures: seq<bool>, k: nat, lens: seq<nat>, blockSize: nat, start: nat, end: nat, i: nat)
    requires |lens| == |erasures| && start <= i <= end < |erasures| && erasures[i]
    ensures Accepts(erasures, k, lens, blockSize, start, end) ==>
      lens[i] == blockSize && |Sel(erasures, start, i)| < NUM_OUTPUTS
  {
    SelNext(erasures, start, i, end + 1);
  }

  /** A surviving block is among the inputs as long as fewer than `k` precede it. */
  lemma MapIn(erasures: seq<bool>, k: nat, lens: seq<nat>, blockSize: nat, start: nat, end: nat, i: nat)
    requires |lens| == |erasures| && start <= end < |erasures| && i < |erasures| && !erasures[i]
    requires |Sel(Negated(erasures), 0, i)| < k
    ensures Accepts(erasures, k, lens, blockSize, start, end) ==> lens[i] == blockSize
  {
    var alive := Negated(erasures);
    SelNext(alive, 0, i, |erasures|);
    assert Survivors(erasures, k)[|Sel(alive, 0, i)|] == i;
  }

  ghost function First(s: seq<nat>, k: nat): seq<nat> {
    if |s| <= k then s else s[..k]
  }

  // ---------------------------------------------------------------- the matrix of a section

  /** Where the entry for column `j` of row `i` is read, in a decode matrix with `m` columns. */
  function Source(m: nat, off: nat, i: nat, j: nat): nat {
    Cell(0, m, i, off + j)
  }

  /** A launch of `cur` columns from number `off` on reads inside a matrix of `k` rows exactly when its columns, padded
      to four if there are three, are all there; it never reads more than one entry past the end. */
  lemma ReadsInside(k: nat, m: nat, cur: nat, off: nat)
    requires 0 < k && off + cur <= m && 0 < cur <= NUM_OUTPUTS
    ensures (forall i: nat, j: nat :: i < k && j < NOutputs(cur) ==> Source(m, off, i, j) < k * m) <==>
      off + NOutputs(cur) <= m
    ensures forall i: nat, j: nat :: i < k && j < NOutputs(cur) ==> Source(m, off, i, j) <= k * m
  {
    hide Cell;
    forall i: nat, j: nat | i < k && j < NOutputs(cur)
      ensures Source(m, off, i, j) <= k * m && (off + j < m ==> Source(m, off, i, j) < k * m)
    {
      if off + j < m {
        CellInRange(0, m, k, i, off + j);
      } else {
        CellInRange(0, m, k, i, off + j - 1);
        CellNext(m, i, off + j - 1);
      }
    }
    if off + NOutputs(cur) > m {
      CellLast(m, k);
      assert Source(m, off, k - 1, 3) == k * m;
    }
  }

  lemma CellNext(m: nat, i: nat, j: nat)
    ensures Cell(0, m, i, j + 1) == Cell(0, m, i, j) + 1
  {
  }

  lemma CellLast(m: nat, k: nat)
    requires k > 0
    ensures Cell(0, m, k - 1, m) == k * m
  {
    assert (k - 1) * m + m == k * m;
  }

  /** Decoding `e` blocks never reads past its matrix exactly when `e` does not leave three for the last launch. */
  lemma DecodeReads(k: nat, e: nat)
    requires k > 0
    ensures (forall s: nat, i: nat, j: nat :: s < MultNum(e) && i < k && j < NOutputs(Cols(s, MultNum(e), e)) ==>
        Source(e, NUM_OUTPUTS * s, i, j) < k * e)
      <==> e % NUM_OUTPUTS != 3
  {
    hide Source;
    var n := MultNum(e);
    forall s: nat | s < n
      ensures var cur := Cols(s, n, e); 0 < cur <= NUM_OUTPUTS && NUM_OUTPUTS * s + cur <= e
      ensures (forall i: nat, j: nat :: i < k && j < NOutputs(Cols(s, n, e)) ==>
          Source(e, NUM_OUTPUTS * s, i, j) < k * e)
        <==> Cols(s, n, e) != 3
    {
      SectionCols(e, s);
      ReadsInside(k, e, Cols(s, n, e), NUM_OUTPUTS * s);
    }
    if e % NUM_OUTPUTS == 3 { assert Cols(n - 1, n, e) == 3; }
  }

  /** The launches of a call all fit a matrix of the pool, which has `k` rows of `m` columns, padded to four if there
      are three, exactly when no more than `m` blocks are erased or `m` is at least three. */
  lemma PoolFits(k: nat, m: nat, e: nat)
    requires k > 0
    ensures (forall s: nat :: s < MultNum(e) ==> k * NOutputs(Cols(s, MultNum(e), e)) <= k * NOutputs(m)) <==>
      e <= m || m >= 3
  {
    var n := MultNum(e);
    if e <= m || m >= 3 {
      forall s: nat | s < n
        ensures k * NOutputs(Cols(s, n, e)) <= k * NOutputs(m)
      {
        SectionCols(e, s);
        LaunchFits(k, m, Cols(s, n, e));
      }
    } else {
      SectionCols(e, 0);
      Times(NOutputs(m) + 1, NOutputs(Cols(0, n, e)), k);
      assert k * NOutputs(Cols(0, n, e)) > k * NOutputs(m);
    }
  }

  lemma LaunchFits(k: nat, m: nat, cur: nat)
    requires cur <= NUM_OUTPUTS && (cur <= m || m >= 3)
    ensures k * NOutputs(cur) <= k * NOutputs(m)
  {
    Times(NOutputs(cur), NOutputs(m), k);
  }

  /** The decode matrix is read through a pointer: `mem` is what memory holds from there on. With three
      columns left, the loop also reads the entry after each row, whatever it is, and overwrites it with zero. */
  method GetDecodeMat<T>(mem: nat -> T, ghost matrix: seq<T>, k: nat, m: nat, cur: nat, off: nat, zero: T,
                         buf: array<T>)
    requires off + cur <= m && cur <= NUM_OUTPUTS && k * m <= |matrix| && k * NOutputs(cur) <= buf.Length
    requires forall x: nat :: x < |matrix| ==> mem(x) == matrix[x]
    modifies buf
    ensures Holds(buf[..], 0, k, cur, matrix, m, off, zero)
  {
    hide Stored;
    var cols := NOutputs(cur);
    for i := 0 to k
      invariant Columns(buf[..], k, cur, matrix, m, off, zero, i, 0)
    {
      for j := 0 to cols
        invariant Columns(buf[..], k, cur, matrix, m, off, zero, i, j)
      {
        ColumnStep(buf[..], k, cur, matrix, m, off, zero, i, j, mem(Source(m, off, i, j)));
        buf[Cell(0, cols, i, j)] := mem(Source(m, off, i, j));
      }
    }
    if cur == 3 {
      for i := 0 to k
        invariant Columns(buf[..], k, cur, matrix, m, off, zero, k, 0)
        invariant forall r: nat :: r < i ==> Stored(buf[..], 0, k, cur, matrix, m, off, zero, r, 3)
      {
        ZeroStep(buf[..], k, matrix, m, off, zero, i);
        buf[Cell(0, cols, i, 3)] := zero;
      }
    }
  }

  /** The wanted columns of the rows before `i`, and of row `i` before column `j`, are stored. */
  ghost predicate Columns<T>(buf: seq<T>, k: nat, cm: nat, matrix: seq<T>, m: nat, off: nat, zero: T, i: nat, j: nat)
    requires off + cm <= m && k * m <= |matrix| && k * NOutputs(cm) <= |buf|
  {
    forall i': nat, j': nat :: i' < k && j' < cm && (i' < i || (i' == i && j' < j)) ==>
      Stored(buf, 0, k, cm, matrix, m, off, zero, i', j')
  }

  lemma ColumnStep<T>(buf: seq<T>, k: nat, cm: nat, matrix: seq<T>, m: nat, off: nat, zero: T, i: nat, j: nat, v: T)
    requires off + cm <= m && k * m <= |matrix| && k * NOutputs(cm) <= |buf| && i < k && j < NOutputs(cm)
    requires Columns(buf, k, cm, matrix, m, off, zero, i, j)
    requires j < cm && Source(m, off, i, j) < |matrix| ==> v == matrix[Source(m, off, i, j)]
    ensures Cell(0, NOutputs(cm), i, j) < |buf|
    ensures Columns(buf[Cell(0, NOutputs(cm), i, j) := v], k, cm, matrix, m, off, zero, i, j + 1)
  {
    hide Cell;
    CellInRange(0, NOutputs(cm), k, i, j);
    if j < cm { CellInRange(0, m, k, i, off + j); }
    var b := buf[Cell(0, NOutputs(cm), i, j) := v];
    forall i': nat, j': nat | i' < k && j' < cm && (i' < i || (i' == i && j' < j + 1))
      ensures Stored(b, 0, k, cm, matrix, m, off, zero, i', j')
    {
      if !(i' == i && j' == j) {
        FillOther(buf, 0, k, cm, matrix, m, off, zero, i, j, i', j', v);
        assert Stored(buf, 0, k, cm, matrix, m, off, zero, i', j');
      }
    }
  }

  lemma ZeroStep<T>(buf: seq<T>, k: nat, matrix: seq<T>, m: nat, off: nat, zero: T, i: nat)
    requires off + 3 <= m && k * m <= |matrix| && k * 4 <= |buf| && i < k
    requires Columns(buf, k, 3, matrix, m, off, zero, k, 0)
    requires forall r: nat :: r < i ==> Stored(buf, 0, k, 3, matrix, m, off, zero, r, 3)
    ensures Cell(0, 4, i, 3) < |buf|
    ensures var b := buf[Cell(0, 4, i, 3) := zero];
      && Columns(b, k, 3, matrix, m, off, zero, k, 0)
      && forall r: nat :: r < i + 1 ==> Stored(b, 0, k, 3, matrix, m, off, zero, r, 3)
  {
    hide Cell;
    CellInRange(0, 4, k, i, 3);
    var b := buf[Cell(0, 4, i, 3) := zero];
    forall i': nat, j': nat | i' < k && j' < 4 && (j' < 3 || i' < i)
      ensures Stored(b, 0, k, 3, matrix, m, off, zero, i', j')
    {
      FillOther(buf, 0, k, 3, matrix, m, off, zero, i, 3, i', j', zero);
      assert Stored(buf, 0, k, 3, matrix, m, off, zero, i', j');
    }
  }

  // ---------------------------------------------------------------- the decode call

  /** What one launch does: the values it puts into the blocks `outs`, computed from the blocks `ins`. */
  datatype Launch<T> = Refused | Launch(outs: seq<nat>, ins: seq<nat>, values: seq<T>)

  function Fetch<T>(blocks: seq<T>, idx: seq<nat>): (r: seq<T>)
    requires forall x :: 0 <= x < |idx| ==> idx[x] < |blocks|
    ensures |r| == |idx| && forall x :: 0 <= x < |r| ==> r[x] == blocks[idx[x]]
  {
    seq(|idx|, i requires 0 <= i < |idx| => blocks[idx[i]])
  }

  lemma SurvivorsInRange(erasures: seq<bool>, k: nat)
    ensures forall x :: 0 <= x < |Survivors(erasures, k)| ==>
      Survivors(erasures, k)[x] < |erasures| && !erasures[Survivors(erasures, k)[x]]
  {
  }

  /** The call being served: what is erased, the decode matrix for it, and the blocks. */
  datatype Call<!T> = Call(f: Symbols<T>, k: nat, m: nat, erasures: seq<bool>, matrix: seq<T>, blocks: seq<T>,
                           lens: seq<nat>, blockSize: nat)
  {
    ghost predicate Ok() {
      |erasures| == k + m == |blocks| == |lens| && k * |Erased()| <= |matrix|
    }

    /** The launches fit the matrices of the pool. */
    ghost predicate Pooled() { k == 0 || m >= 3 || |Erased()| <= m }

    ghost function Erased(): seq<nat> { Sel(erasures, 0, |erasures|) }

    /** What block number `c` of the erased ones should become. */
    ghost function Recovered(c: nat): T
      requires Ok() && c < |Erased()|
    {
      SurvivorsInRange(erasures, k);
      Times(|Survivors(erasures, k)|, k, |Erased()|);
      Code(f, matrix, |Erased()|, Fetch(blocks, Survivors(erasures, k)), c)
    }

    /** The launch for the `n` erased blocks from number `off` on. */
    ghost predicate Right(l: Launch<T>, off: nat, n: nat)
      requires Ok() && off + n <= |Erased()|
    {
      var outs := Erased()[off..off + n];
      if Sized(lens, outs, blockSize) && Sized(lens, Survivors(erasures, k), blockSize) then
        && l.Launch? && l.outs == outs && l.ins == Survivors(erasures, k) && |l.values| == n
        && forall c :: 0 <= c < n ==> l.values[c] == Recovered(off + c)
      else l == Refused
    }
  }

  /** One launch, for the erased blocks in `[start, end]`. */
  method DecodeSection<T(0)>(mem: nat -> T, c: Call<T>, cur: nat, off: nat, start: nat, end: nat, e: nat)
      returns (l: Launch<T>)
    requires c.Ok() && c.Pooled() && e == |c.Erased()| && (forall x: nat :: x < |c.matrix| ==> mem(x) == c.matrix[x])
    requires start <= end < |c.erasures| && 0 < cur <= NUM_OUTPUTS
    requires off == |Sel(c.erasures, 0, start)| && cur == |Sel(c.erasures, start, end + 1)|
    ensures off + cur <= e && c.Right(l, off, cur)
  {
    hide Holds, Sel, Survivors, VecCalc, Code, Fetch, Accepts;
    SectionIndices(c, start, end);
    SurvivorsInRange(c.erasures, c.k);
    var buf := new T[c.k * NOutputs(c.m)];    // a matrix of the pool
    if c.k > 0 { LaunchFits(c.k, c.m, cur); }
    GetDecodeMat(mem, c.matrix, c.k, e, cur, off, c.f.zero, buf);
    var ok, ins, outs := SetDecodeKlms(c.erasures, c.k, c.lens, c.blockSize, start, end);
    AcceptsMeans(c, start, end);
    if !ok { return Refused; }
    Section(c.f, buf[..], 0, c.k, cur, c.matrix, e, off, Fetch(c.blocks, ins));
    l := Launch(outs, ins, VecCalc(c.f, buf[..], 0, NOutputs(cur), Fetch(c.blocks, ins), cur));
  }

  lemma AcceptsMeans<T>(c: Call<T>, start: nat, end: nat)
    requires end < |c.erasures|
    ensures Accepts(c.erasures, c.k, c.lens, c.blockSize, start, end) <==>
      && |Sel(c.erasures, start, end + 1)| <= NUM_OUTPUTS
      && Sized(c.lens, Sel(c.erasures, start, end + 1), c.blockSize)
      && Sized(c.lens, Survivors(c.erasures, c.k), c.blockSize)
  {
  }

  /** The erased blocks of a section are consecutive among the erased ones. */
  lemma SectionIndices<T>(c: Call<T>, start: nat, end: nat)
    requires start <= end < |c.erasures|
    ensures var off, cur := |Sel(c.erasures, 0, start)|, |Sel(c.erasures, start, end + 1)|;
      off + cur <= |c.Erased()| && c.Erased()[off..off + cur] == Sel(c.erasures, start, end + 1)
  {
    SelConcat(c.erasures, 0, start, end + 1);
    SelConcat(c.erasures, 0, end + 1, |c.erasures|);
  }

  /** The launches cover the erased blocks in order, four each, the rest in the last one. */
  ghost predicate Covers<T>(c: Call<T>, launches: seq<Launch<T>>, done: nat)
    requires c.Ok() && done <= |c.Erased()|
  {
    && (if done < |c.Erased()| then done == NUM_OUTPUTS * |launches| else |launches| == MultNum(done))
    && forall s :: 0 <= s < |launches| ==> Piece(c, launches[s], s)
  }

  /** Launch `s` recovers the erased blocks from number `4 * s` on. */
  ghost predicate Piece<T>(c: Call<T>, l: Launch<T>, s: nat)
    requires c.Ok()
  {
    var off, e := NUM_OUTPUTS * s, |c.Erased()|;
    off < e && c.Right(l, off, if e - off < NUM_OUTPUTS then e - off else NUM_OUTPUTS)
  }

  method DecodeBigM<T(0)>(mem: nat -> T, c: Call<T>, e: nat) returns (launches: seq<Launch<T>>)
    requires c.Ok() && c.Pooled() && e == |c.Erased()| && (forall x: nat :: x < |c.matrix| ==> mem(x) == c.matrix[x])
    ensures Covers(c, launches, e)
  {
    hide Sel, c.Right;
    launches := [];
    var i, j, total, offset, start := 0, 0, 0, 0, 0;
    SelEmpty(c.erasures, 0);
    while i < |c.erasures| && total < e
      invariant start <= i <= |c.erasures| && j == |Sel(c.erasures, start, i)| && j < NUM_OUTPUTS
      invariant total == |Sel(c.erasures, 0, i)| <= e && offset == total - j == |Sel(c.erasures, 0, start)|
      invariant total == e ==> j == 0
      invariant Covers(c, launches, offset)
      decreases |c.erasures| - i
    {
      SelNext(c.erasures, 0, i, |c.erasures|);
      SelNext(c.erasures, start, i, |c.erasures|);
      if c.erasures[i] {
        j := j + 1;
        total := total + 1;
      }
      if j == NUM_OUTPUTS || total == e {
        var l := DecodeSection(mem, c, j, offset, start, i, e);
        launches := launches + [l];
        offset := total;
        start := i + 1;
        SelEmpty(c.erasures, start);
        j := 0;
      }
      i := i + 1;
    }
  }

  /** Decoding, with any number of erasures. */
  method DecodeAsync<T(0)>(mem: nat -> T, c: Call<T>) returns (launches: seq<Launch<T>>)
    requires c.Ok() && c.Pooled() && (forall x: nat :: x < |c.matrix| ==> mem(x) == c.matrix[x])
    ensures Covers(c, launches, |c.Erased()|)
  {
    var e := 0;
    for i := 0 to |c.erasures|
      invariant e == |Sel(c.erasures, 0, i)|
    {
      if c.erasures[i] { e := e + 1; }
    }
    if e == 0 {
      launches := [];
    } else if e <= NUM_OUTPUTS {
      SelEmpty(c.erasures, 0);
      var l := DecodeSection(mem, c, e, 0, 0, |c.erasures| - 1, e);
      launches := [l];
    } else {
      launches := DecodeBigM(mem, c, e);
    }
  }
}
