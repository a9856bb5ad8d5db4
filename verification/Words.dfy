/** Bit tables stored as words of `w` bits; a word is the sequence of its bits, lowest first. */
module Words {
  import Ring

  type Word = seq<bool>

  ghost predicate Shaped(t: seq<Word>, w: nat) {
    w > 0 && forall k :: 0 <= k < |t| ==> |t[k]| == w
  }

  predicate BitOf(t: seq<Word>, k: nat, j: nat) {
    k < |t| && j < |t[k]| && t[k][j]
  }

  function PutOf(t: seq<Word>, k: nat, j: nat, v: bool): seq<Word> {
    if k < |t| && j < |t[k]| then t[k := t[k][j := v]] else t
  }

  /** Bit `i` of the table. */
  predicate Bit(t: seq<Word>, w: nat, i: nat)
    requires w > 0
  {
    BitOf(t, i / w, i % w)
  }

  function Put(t: seq<Word>, w: nat, i: nat, v: bool): seq<Word>
    requires w > 0
  {
    PutOf(t, i / w, i % w, v)
  }

  lemma PutBitOf(t: seq<Word>, w: nat, k: nat, j: nat, v: bool)
    requires Shaped(t, w) && k < |t| && j < w
    ensures Shaped(PutOf(t, k, j, v), w) && |PutOf(t, k, j, v)| == |t|
    ensures forall k': nat, j': nat ::
      BitOf(PutOf(t, k, j, v), k', j') == if k' == k && j' == j then v else BitOf(t, k', j')
  {
  }

  /** Changing one bit changes that bit only. */
  lemma PutBit(t: seq<Word>, w: nat, i: nat, v: bool)
    requires Shaped(t, w) && i < |t| * w
    ensures Shaped(Put(t, w, i, v), w) && |Put(t, w, i, v)| == |t|
    ensures forall j: nat :: Bit(Put(t, w, i, v), w, j) == if j == i then v else Bit(t, w, j)
  {
    PutBitAt(t, w, i, v, i);
    hide Bit, Put;
    forall j: nat
      ensures Bit(Put(t, w, i, v), w, j) == if j == i then v else Bit(t, w, j)
    {
      PutBitAt(t, w, i, v, j);
    }
  }

  lemma PutBitAt(t: seq<Word>, w: nat, i: nat, v: bool, j: nat)
    requires Shaped(t, w) && i < |t| * w
    ensures Shaped(Put(t, w, i, v), w) && |Put(t, w, i, v)| == |t|
    ensures Bit(Put(t, w, i, v), w, j) == if j == i then v else Bit(t, w, j)
  {
    hide PutOf, BitOf;
    WordOf(i, |t|, w);
    DivModInjective(i, j, w);
    PutBitOf(t, w, i / w, i % w, v);
  }

  lemma DivModInjective(i: nat, j: nat, w: nat)
    requires w > 0
    ensures i / w == j / w && i % w == j % w ==> i == j
  {
    assert j == (j / w) * w + j % w && i == (i / w) * w + i % w;
  }

  /** Bit `i` of `n` words is in one of them. */
  lemma WordOf(i: nat, n: nat, w: nat)
    requires w > 0 && i < n * w
    ensures i / w < n
  {
    var q := i / w;
    assert i == q * w + i % w;
    assert q >= n ==> q * w == n * w + (q - n) * w;
  }

  /** The bits of word `k`. */
  lemma WordBit(t: seq<Word>, w: nat, k: nat, j: nat)
    requires Shaped(t, w) && k < |t| && j < w
    ensures Bit(t, w, k * w + j) == t[k][j]
  {
    Ring.DivUnique(k * w + j, w, k, j);
  }

  predicate Full(word: Word) {
    forall j :: 0 <= j < |word| ==> word[j]
  }

  predicate Clear(word: Word) {
    forall j :: 0 <= j < |word| ==> !word[j]
  }

  /** The lowest bit of a word that has the value `v`. */
  method FirstBit(word: Word, v: bool) returns (j: nat)
    requires exists k :: 0 <= k < |word| && word[k] == v
    ensures j < |word| && word[j] == v && forall k :: 0 <= k < j ==> word[k] != v
  {
    j := 0;
    while word[j] != v
      invariant j < |word| && (forall k :: 0 <= k < j ==> word[k] != v)
      invariant exists k :: j <= k < |word| && word[k] == v
      decreases |word| - j
    {
      j := j + 1;
    }
  }

  /** Words of 32 bits: the lowest clear bit below `size`, or `size`. */
  method FindFirstZeroBit(t: seq<Word>, size: nat) returns (r: nat)
    requires Shaped(t, 32) && size <= |t| * 32
    ensures r <= size && (forall j: nat :: j < r ==> Bit(t, 32, j)) && (r < size ==> !Bit(t, 32, r))
  {
    hide Bit;
    var p, left := 0, size;
    while left >= 32
      invariant p * 32 + left == size && (forall j: nat :: j < p * 32 ==> Bit(t, 32, j))
    {
      var tmp := t[p];
      WordBits(t, 32, p);
      if !Full(tmp) {
        var z := FirstBit(tmp, false);
        return p * 32 + z;
      }
      p, left := p + 1, left - 32;
    }
    if left == 0 { return p * 32; }
    WordBits(t, 32, p);
    var z := FirstZeroBelow(t[p], left);
    r := p * 32 + z;
  }

  /** The last, partial word: its upper bits are set before it is searched. */
  method FirstZeroBelow(word: Word, size: nat) returns (z: nat)
    requires |word| == 32 && 0 < size < 32
    ensures z <= size && (forall j :: 0 <= j < z ==> word[j]) && (z < size ==> !word[z])
  {
    var tmp := word[..size] + seq(32 - size, _ => true);
    assert forall j :: size <= j < 32 ==> tmp[j];
    if Full(tmp) {
      assert forall j :: 0 <= j < size ==> tmp[j] == word[j];
      return size;
    }
    z := FirstBit(tmp, false);
    assert forall j :: 0 <= j < z ==> tmp[j] == word[j];
  }

  lemma WordBits(t: seq<Word>, w: nat, p: nat)
    requires Shaped(t, w) && p < |t|
    ensures forall j: nat :: p * w <= j < p * w + w ==> Bit(t, w, j) == t[p][j - p * w]
  {
    forall j: nat | p * w <= j < p * w + w
      ensures Bit(t, w, j) == t[p][j - p * w]
    {
      WordBit(t, w, p, j - p * w);
    }
  }

  /** How many of the first `n` bits are clear. */
  ghost function Clears(t: seq<Word>, w: nat, n: nat): nat
    requires w > 0
  {
    if n == 0 then 0 else Clears(t, w, n - 1) + if Bit(t, w, n - 1) then 0 else 1
  }

  lemma {:induction false} ClearsPut(t: seq<Word>, w: nat, i: nat, v: bool, n: nat)
    requires Shaped(t, w) && i < |t| * w
    ensures Clears(Put(t, w, i, v), w, n) ==
            Clears(t, w, n)
            + (if i < n && Bit(t, w, i) && !v then 1 else 0) - (if i < n && !Bit(t, w, i) && v then 1 else 0)
  {
    hide Bit, Put;
    PutBit(t, w, i, v);
    if n > 0 { ClearsPut(t, w, i, v, n - 1); }
  }

  lemma {:induction false} ClearsBounds(t: seq<Word>, w: nat, n: nat)
    requires w > 0
    ensures Clears(t, w, n) <= n
    ensures Clears(t, w, n) == n <==> forall i: nat :: i < n ==> !Bit(t, w, i)
    ensures Clears(t, w, n) == 0 <==> forall i: nat :: i < n ==> Bit(t, w, i)
  {
    hide Bit;
    if n > 0 { ClearsBounds(t, w, n - 1); }
  }
}
