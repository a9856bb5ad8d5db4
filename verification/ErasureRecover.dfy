/** What decoding recovers: with a decode matrix that undoes the code on the surviving blocks, the erased blocks. */
module ErasureRecover {
  import opened ErasureMatrix
  import opened ErasureCalc
  import opened ErasureDecode

  /** The symbols form a ring of characteristic two, not necessarily a commutative one. */
  ghost predicate IsRing<T(!new)>(f: Symbols<T>) {
    CharTwo(f) && Unital(f) && Distributes(f)
  }

  ghost predicate Unital<T(!new)>(f: Symbols<T>) {
    && (forall a :: f.mul(f.zero, a) == f.zero) && (forall a :: f.mul(a, f.zero) == f.zero)
    && (forall a :: f.mul(f.one, a) == a) && (forall a :: f.mul(a, f.one) == a)
  }

  ghost predicate Distributes<T(!new)>(f: Symbols<T>) {
    && (forall a, b, c :: f.mul(a, f.add(b, c)) == f.add(f.mul(a, b), f.mul(a, c)))
    && (forall a, b, c :: f.mul(f.add(a, b), c) == f.add(f.mul(a, c), f.mul(b, c)))
    && (forall a, b, c :: f.mul(f.mul(a, b), c) == f.mul(a, f.mul(b, c)))
  }

  lemma ZeroOne<T(!new)>(f: Symbols<T>, a: T)
    requires IsRing(f)
    ensures f.mul(f.zero, a) == f.zero && f.mul(a, f.zero) == f.zero && f.mul(f.one, a) == a && f.mul(a, f.one) == a
    ensures f.add(f.zero, a) == a && f.add(a, f.zero) == a
  {
    hide Distributes, CharTwo;
    AddZero(f, a);
  }

  lemma AddZero<T(!new)>(f: Symbols<T>, a: T)
    requires CharTwo(f)
    ensures f.add(f.zero, a) == a && f.add(a, f.zero) == a
  {
    assert f.add(f.zero, a) == f.add(a, f.zero);
  }

  /** A code of `k` data blocks and `m` code blocks with its encode matrix. */
  datatype Scheme<!T> = Scheme(f: Symbols<T>, k: nat, m: nat, encode: seq<T>)
  {
    /** How data block `i` enters block `x`. */
    function Gen(i: nat, x: nat): T {
      if x >= k then Entry(f, encode, Cell(0, m, i, x - k)) else if i == x then f.one else f.zero
    }

    /** What the first `n` data blocks contribute to block `x`. */
    function Part(data: seq<T>, x: nat, n: nat): T
      requires n <= |data|
    {
      if n == 0 then f.zero else f.add(Part(data, x, n - 1), f.mul(Gen(n - 1, x), data[n - 1]))
    }

    /** Block `x` of the encoded data. */
    function Block(data: seq<T>, x: nat): T { Part(data, x, |data|) }
  }

  /** The data blocks come first and the code blocks after them. */
  lemma BlockMeans<T(!new)>(s: Scheme<T>, data: seq<T>, x: nat)
    requires IsRing(s.f) && |data| == s.k && x < s.k + s.m && s.k * s.m <= |s.encode|
    ensures x < s.k ==> s.Block(data, x) == data[x]
    ensures x >= s.k ==> s.Block(data, x) == Code(s.f, s.encode, s.m, data, x - s.k)
  {
    if x < s.k {
      DataPart(s, data, x, s.k);
    } else {
      CodePart(s, data, x, s.k);
    }
  }

  lemma {:induction false} DataPart<T(!new)>(s: Scheme<T>, data: seq<T>, x: nat, n: nat)
    requires IsRing(s.f) && n <= |data| == s.k && x < s.k
    ensures s.Part(data, x, n) == if x < n then data[x] else s.f.zero
  {
    hide IsRing;
    if n > 0 {
      DataPart(s, data, x, n - 1);
      ZeroOne(s.f, data[n - 1]);
      if x < n - 1 { ZeroOne(s.f, data[x]); } else { ZeroOne(s.f, s.f.zero); }
    }
  }

  lemma {:induction false} CodePart<T>(s: Scheme<T>, data: seq<T>, x: nat, n: nat)
    requires n <= |data| && x >= s.k
    ensures s.Part(data, x, n) == ColDot(s.f, s.encode, 0, s.m, x - s.k, data, n)
  {
    if n > 0 { CodePart(s, data, x, n - 1); }
  }

  // ---------------------------------------------------------------- the decode matrix times the survivors

  /** Column `c` of a decode matrix with `cols` columns times the first `n` of the blocks `idx` of the encoded data. */
  function Restored<T>(s: Scheme<T>, d: seq<T>, cols: nat, c: nat, idx: seq<nat>, data: seq<T>, n: nat): T
    requires n <= |idx|
  {
    if n == 0 then s.f.zero else
      s.f.add(Restored(s, d, cols, c, idx, data, n - 1),
              s.f.mul(Entry(s.f, d, Cell(0, cols, n - 1, c)), s.Block(data, idx[n - 1])))
  }

  /** How data block `i` enters that. */
  function Coef<T>(s: Scheme<T>, d: seq<T>, cols: nat, c: nat, idx: seq<nat>, i: nat, n: nat): T
    requires n <= |idx|
  {
    if n == 0 then s.f.zero else
      s.f.add(Coef(s, d, cols, c, idx, i, n - 1),
              s.f.mul(Entry(s.f, d, Cell(0, cols, n - 1, c)), s.Gen(i, idx[n - 1])))
  }

  /** The first `j` data blocks, weighted so. */
  function Mix<T>(s: Scheme<T>, d: seq<T>, cols: nat, c: nat, idx: seq<nat>, data: seq<T>, n: nat, j: nat): T
    requires n <= |idx| && j <= |data|
  {
    if j == 0 then s.f.zero else
      s.f.add(Mix(s, d, cols, c, idx, data, n, j - 1), s.f.mul(Coef(s, d, cols, c, idx, j - 1, n), data[j - 1]))
  }

  /** Column `c` of the decode matrix undoes the code for block `x`: applied to the blocks `idx` it has the coefficients
      of block `x`. */
  ghost predicate Undoes<T>(s: Scheme<T>, d: seq<T>, cols: nat, c: nat, idx: seq<nat>, x: nat) {
    forall i: nat :: i < s.k ==> Coef(s, d, cols, c, idx, i, |idx|) == s.Gen(i, x)
  }

  lemma {:induction false} MixNone<T(!new)>(s: Scheme<T>, d: seq<T>, cols: nat, c: nat, idx: seq<nat>, data: seq<T>,
                                            j: nat)
    requires IsRing(s.f) && j <= |data|
    ensures Mix(s, d, cols, c, idx, data, 0, j) == s.f.zero
  {
    hide IsRing;
    if j > 0 {
      MixNone(s, d, cols, c, idx, data, j - 1);
      ZeroOne(s.f, data[j - 1]);
      ZeroOne(s.f, s.f.zero);
    }
  }

  /** One more block. */
  lemma {:induction false} MixMore<T(!new)>(s: Scheme<T>, d: seq<T>, cols: nat, c: nat, idx: seq<nat>, data: seq<T>,
                                            n: nat, j: nat)
    requires IsRing(s.f) && 0 < n <= |idx| && j <= |data|
    ensures Mix(s, d, cols, c, idx, data, n, j) ==
      s.f.add(Mix(s, d, cols, c, idx, data, n - 1, j),
              s.f.mul(Entry(s.f, d, Cell(0, cols, n - 1, c)), s.Part(data, idx[n - 1], j)))
  {
    var e := Entry(s.f, d, Cell(0, cols, n - 1, c));
    if j > 0 {
      hide Cell, Entry, IsRing;
      MixMore(s, d, cols, c, idx, data, n, j - 1);
      Weigh(s.f, Mix(s, d, cols, c, idx, data, n - 1, j - 1), e, s.Part(data, idx[n - 1], j - 1),
            Coef(s, d, cols, c, idx, j - 1, n - 1), s.Gen(j - 1, idx[n - 1]), data[j - 1]);
    }
  }

  lemma Weigh<T(!new)>(f: Symbols<T>, mix: T, e: T, part: T, coef: T, gen: T, x: T)
    requires IsRing(f)
    ensures f.add(f.add(mix, f.mul(e, part)), f.mul(f.add(coef, f.mul(e, gen)), x)) ==
      f.add(f.add(mix, f.mul(coef, x)), f.mul(e, f.add(part, f.mul(gen, x))))
  {
    hide CharTwo, Unital;
    assert f.mul(f.add(coef, f.mul(e, gen)), x) == f.add(f.mul(coef, x), f.mul(f.mul(e, gen), x));
    assert f.mul(f.mul(e, gen), x) == f.mul(e, f.mul(gen, x));
    assert f.mul(e, f.add(part, f.mul(gen, x))) == f.add(f.mul(e, part), f.mul(e, f.mul(gen, x)));
    hide Distributes;
    AddPairs(f, mix, f.mul(coef, x), f.mul(e, part), f.mul(e, f.mul(gen, x)));
  }

  /** Combining encoded blocks is weighting the data. */
  lemma {:induction false} RestoredMix<T(!new)>(s: Scheme<T>, d: seq<T>, cols: nat, c: nat, idx: seq<nat>, data: seq<T>,
                                                n: nat)
    requires IsRing(s.f) && n <= |idx|
    ensures Restored(s, d, cols, c, idx, data, n) == Mix(s, d, cols, c, idx, data, n, |data|)
  {
    hide IsRing, Mix;
    if n == 0 {
      MixNone(s, d, cols, c, idx, data, |data|);
    } else {
      RestoredMix(s, d, cols, c, idx, data, n - 1);
      MixMore(s, d, cols, c, idx, data, n, |data|);
    }
  }

  lemma {:induction false} MixPart<T>(s: Scheme<T>, d: seq<T>, cols: nat, c: nat, idx: seq<nat>, data: seq<T>, x: nat,
                                      j: nat)
    requires Undoes(s, d, cols, c, idx, x) && j <= |data| == s.k
    ensures Mix(s, d, cols, c, idx, data, |idx|, j) == s.Part(data, x, j)
  {
    if j > 0 { MixPart(s, d, cols, c, idx, data, x, j - 1); }
  }

  /** A column restores block `x` from the blocks `idx`, whatever the data, exactly when it undoes the code for it. */
  lemma RestoresIff<T(!new)>(s: Scheme<T>, d: seq<T>, cols: nat, c: nat, idx: seq<nat>, x: nat)
    requires IsRing(s.f)
    ensures Undoes(s, d, cols, c, idx, x) <==>
      forall data: seq<T> :: |data| == s.k ==> Restored(s, d, cols, c, idx, data, |idx|) == s.Block(data, x)
  {
    hide IsRing;
    if Undoes(s, d, cols, c, idx, x) {
      forall data: seq<T> | |data| == s.k
        ensures Restored(s, d, cols, c, idx, data, |idx|) == s.Block(data, x)
      {
        RestoredMix(s, d, cols, c, idx, data, |idx|);
        MixPart(s, d, cols, c, idx, data, x, s.k);
      }
    } else {
      var i: nat :| i < s.k && Coef(s, d, cols, c, idx, i, |idx|) != s.Gen(i, x);
      var unit := Unit(s, i);
      RestoredMix(s, d, cols, c, idx, unit, |idx|);
      UnitMix(s, d, cols, c, idx, i, s.k);
      UnitPart(s, i, x, s.k);
      assert Restored(s, d, cols, c, idx, unit, |idx|) != s.Block(unit, x);
    }
  }

  /** Data block `i` one, the others zero. */
  function Unit<T>(s: Scheme<T>, i: nat): (r: seq<T>)
    ensures |r| == s.k && forall j :: 0 <= j < s.k ==> r[j] == if j == i then s.f.one else s.f.zero
  {
    seq(s.k, j => if j == i then s.f.one else s.f.zero)
  }

  lemma {:induction false} UnitMix<T(!new)>(s: Scheme<T>, d: seq<T>, cols: nat, c: nat, idx: seq<nat>, i: nat, j: nat)
    requires IsRing(s.f) && i < s.k && j <= s.k
    ensures Mix(s, d, cols, c, idx, Unit(s, i), |idx|, j) ==
      if i < j then Coef(s, d, cols, c, idx, i, |idx|) else s.f.zero
  {
    hide IsRing, Coef;
    if j > 0 {
      UnitMix(s, d, cols, c, idx, i, j - 1);
      ZeroOne(s.f, Coef(s, d, cols, c, idx, i, |idx|));
      ZeroOne(s.f, Coef(s, d, cols, c, idx, j - 1, |idx|));
      ZeroOne(s.f, s.f.zero);
    }
  }

  lemma {:induction false} UnitPart<T(!new)>(s: Scheme<T>, i: nat, x: nat, j: nat)
    requires IsRing(s.f) && i < s.k && j <= s.k
    ensures s.Part(Unit(s, i), x, j) == if i < j then s.Gen(i, x) else s.f.zero
  {
    hide IsRing, s.Gen;
    if j > 0 {
      UnitPart(s, i, x, j - 1);
      ZeroOne(s.f, s.Gen(i, x));
      ZeroOne(s.f, s.Gen(j - 1, x));
      ZeroOne(s.f, s.f.zero);
    }
  }

  // ---------------------------------------------------------------- the decode call

  /** The call is for blocks of this code: the ones that survive are those of the encoded data. */
  ghost predicate Survived<T>(s: Scheme<T>, c: Call<T>, data: seq<T>) {
    && c.Ok() && c.f == s.f && c.k == s.k && c.m == s.m && |data| == s.k
    && forall x: nat :: x < |c.blocks| && !c.erasures[x] ==> c.blocks[x] == s.Block(data, x)
  }

  /** The decode matrix undoes the code for every erased block. */
  ghost predicate Inverts<T>(s: Scheme<T>, c: Call<T>) {
    forall e: nat :: e < |c.Erased()| ==>
      Undoes(s, c.matrix, |c.Erased()|, e, Survivors(c.erasures, c.k), c.Erased()[e])
  }

  lemma {:induction false} RecoveredTo<T>(s: Scheme<T>, c: Call<T>, data: seq<T>, e: nat, vec: seq<T>, n: nat)
    requires Survived(s, c, data) && n <= |Survivors(c.erasures, c.k)| == |vec|
    requires forall t :: 0 <= t < |vec| ==> vec[t] == s.Block(data, Survivors(c.erasures, c.k)[t])
    ensures ColDot(s.f, c.matrix, 0, |c.Erased()|, e, vec, n) ==
      Restored(s, c.matrix, |c.Erased()|, e, Survivors(c.erasures, c.k), data, n)
  {
    hide Survivors, Cell;
    if n > 0 { RecoveredTo(s, c, data, e, vec, n - 1); }
  }

  /** What is computed for erased block number `e` is that block of the encoded data. */
  lemma RecoversBlock<T(!new)>(s: Scheme<T>, c: Call<T>, data: seq<T>, e: nat)
    requires IsRing(s.f) && Survived(s, c, data) && Inverts(s, c) && e < |c.Erased()|
    ensures c.Recovered(e) == s.Block(data, c.Erased()[e])
  {
    hide Survivors, ColDot, IsRing, Undoes, Restored, s.Block;
    var surv := Survivors(c.erasures, c.k);
    SurvivorsInRange(c.erasures, c.k);
    Times(|surv|, c.k, |c.Erased()|);
    var vec := Fetch(c.blocks, surv);
    RecoveredTo(s, c, data, e, vec, |surv|);
    RestoresIff(s, c.matrix, |c.Erased()|, e, surv, c.Erased()[e]);
  }

  /** After decoding with such a matrix, every erased block has been given its value of the encoded data, in the launch
      that its number says, provided all blocks have the block size. */
  lemma DecodeRestores<T(!new)>(s: Scheme<T>, c: Call<T>, data: seq<T>, launches: seq<Launch<T>>, e: nat)
    requires IsRing(s.f) && Survived(s, c, data) && Inverts(s, c) && e < |c.Erased()|
    requires Covers(c, launches, |c.Erased()|) && forall x :: 0 <= x < |c.lens| ==> c.lens[x] == c.blockSize
    ensures var n, j := e / NUM_OUTPUTS, e % NUM_OUTPUTS;
      && n < |launches| && launches[n].Launch? && j < |launches[n].outs| && j < |launches[n].values|
      && launches[n].outs[j] == c.Erased()[e] && launches[n].values[j] == s.Block(data, c.Erased()[e])
  {
    hide Survivors, IsRing, Inverts, s.Block, c.Recovered;
    RecoversBlock(s, c, data, e);
    var n := e / NUM_OUTPUTS;
    assert Piece(c, launches[n], n);
    SurvivorsInRange(c.erasures, c.k);
    ErasedInRange(c);
  }

  lemma ErasedInRange<T>(c: Call<T>)
    ensures forall x :: 0 <= x < |c.Erased()| ==> c.Erased()[x] < |c.erasures| && c.erasures[c.Erased()[x]]
  {
  }
}
