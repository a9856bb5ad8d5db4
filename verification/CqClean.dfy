/** What cleaning a completion queue of one resource means, on sequences. */
module CqClean {
  import opened Common
  import opened Ring
  import opened Cqes
  import opened CqInvariant

  /** Does entry `c` belong to the resource? */
  predicate Matches(e: Env, c: Cqe, rsn: nat) {
    rsn == if e.cqeVersion then c.srqnUidx % 0x100_0000 else c.qpn % 0x100_0000
  }

  /** Does removing entry `c` give a receive WQE back to the shared receive queue? */
  predicate ReturnsWqe(e: Env, c: Cqe) {
    if e.cqeVersion then IsResponder(c.op.opcode) else c.srqnUidx % 0x100_0000 != 0
  }

  /** A clean of resource `rsn` removes an entry tagged for `number` exactly if that is `rsn`; it gives a WQE back for
      those of a responder or, in the older format, for those of a queue with a shared receive queue. */
  lemma TaggedMatches(e: Env, c: Cqe, number: nat, srq: nat, high: nat, rsn: nat)
    requires number < 0x100_0000 && srq < 0x100_0000
    ensures var x := Tagged(c, e.cqeVersion, number, srq, high);
      && (Matches(e, x, rsn) <==> number == rsn)
      && (ReturnsWqe(e, x) <==> if e.cqeVersion then IsResponder(c.op.opcode) else srq != 0)
  {
  }

  /** The entries that stay. */
  function Keep(e: Env, s: seq<Cqe>, rsn: nat): (r: seq<Cqe>)
    ensures |r| <= |s| && forall i :: 0 <= i < |r| ==> !Matches(e, r[i], rsn)
  {
    if s == [] then []
    else (if Matches(e, s[0], rsn) then [] else [s[0]]) + Keep(e, s[1..], rsn)
  }

  /** The WQE indices given back, in the order of the backward sweep. */
  function Freed(e: Env, s: seq<Cqe>, rsn: nat): seq<nat> {
    if s == [] then []
    else Freed(e, s[1..], rsn) + (if Matches(e, s[0], rsn) && ReturnsWqe(e, s[0]) then [s[0].wqeCounter] else [])
  }

  /** The entries that go. */
  function Gone(e: Env, s: seq<Cqe>, rsn: nat): (r: seq<Cqe>)
    ensures forall i :: 0 <= i < |r| ==> Matches(e, r[i], rsn)
  {
    if s == [] then [] else (if Matches(e, s[0], rsn) then [s[0]] else []) + Gone(e, s[1..], rsn)
  }

  /** What stays is in order. */
  lemma {:induction false} KeepWithin(e: Env, s: seq<Cqe>, rsn: nat)
    ensures Within(Keep(e, s, rsn), s)
  {
    if s != [] {
      hide Matches;
      KeepWithin(e, s[1..], rsn);
      if Matches(e, s[0], rsn) {
        assert Keep(e, s, rsn) == Keep(e, s[1..], rsn);
      } else {
        assert Keep(e, s, rsn)[1..] == Keep(e, s[1..], rsn);
      }
    }
  }

  /** What stays and what goes is everything. */
  lemma {:induction false} KeepAndGone(e: Env, s: seq<Cqe>, rsn: nat)
    ensures multiset(Keep(e, s, rsn)) + multiset(Gone(e, s, rsn)) == multiset(s)
  {
    if s != [] {
      KeepAndGone(e, s[1..], rsn);
      var k, g := Keep(e, s[1..], rsn), Gone(e, s[1..], rsn);
      assert s == [s[0]] + s[1..];
      assert Matches(e, s[0], rsn) ==> Keep(e, s, rsn) == k && Gone(e, s, rsn) == [s[0]] + g;
      assert !Matches(e, s[0], rsn) ==> Keep(e, s, rsn) == [s[0]] + k && Gone(e, s, rsn) == g;
      hide Matches, Keep, Gone;
      OneOfBoth(s[0], k, g, s[1..]);
    }
  }

  lemma OneOfBoth<T>(x: T, a: seq<T>, b: seq<T>, t: seq<T>)
    requires multiset(a) + multiset(b) == multiset(t)
    ensures multiset([x] + a) + multiset(b) == multiset([x] + t) && multiset(a) + multiset([x] + b) == multiset([x] + t)
  {
    assert multiset([x] + a) == multiset{x} + multiset(a) && multiset([x] + b) == multiset{x} + multiset(b);
    assert multiset([x] + t) == multiset{x} + multiset(t);
  }

  lemma {:induction false} KeepConcat(e: Env, s: seq<Cqe>, t: seq<Cqe>, rsn: nat)
    ensures Keep(e, s + t, rsn) == Keep(e, s, rsn) + Keep(e, t, rsn)
  {
    if s == [] {
      assert s + t == t;
    } else {
      assert (s + t)[1..] == s[1..] + t;
      KeepConcat(e, s[1..], t, rsn);
    }
  }

  /** The sweep covers all pending entries unless the ring is full, when the scan for the
      producer index stops one entry early. */
  function Swept(pending: nat, n: nat): nat
    requires n > 0
  {
    if pending >= n then n - 1 else pending
  }

  /** What is pending after a clean. */
  function Cleaned(e: Env, pending: seq<Cqe>, rsn: nat, n: nat): seq<Cqe>
    requires n > 0
  {
    var m := Swept(|pending|, n);
    Keep(e, pending[..m], rsn) + pending[m..]
  }

  /** Cleaning removes exactly the resource's entries if and only if the ring is not full
      or its newest entry belongs to another resource. */
  lemma CleanExactness(e: Env, pending: seq<Cqe>, rsn: nat, n: nat)
    requires n > 0 && |pending| <= n
    ensures Cleaned(e, pending, rsn, n) == Keep(e, pending, rsn)
       <==> (|pending| < n || !Matches(e, pending[n - 1], rsn))
  {
    var m := Swept(|pending|, n);
    assert pending == pending[..m] + pending[m..];
    KeepConcat(e, pending[..m], pending[m..], rsn);
    if |pending| == n {
      assert pending[m..] == [pending[n - 1]];
      assert pending[m..][1..] == [];
    } else {
      assert pending[m..] == [];
    }
  }

  /** The ring in the middle of the backward sweep: positions `p..m` of `hist` have been
      looked at and the survivors moved up against `m`. */
  ghost predicate Sweeping(e: Env, b0: seq<Cqe>, b: seq<Cqe>, cons: nat, hist: seq<Cqe>, rsn: nat, p: nat, m: nat,
                           nfreed: nat)
  {
    && 0 < |b| == |b0| && cons <= p <= m <= |hist| && m < cons + |b|
    && var kept := Keep(e, hist[p..m], rsn);
    && nfreed == m - p - |kept|
    && (forall q: nat :: cons <= q < p || m <= q < cons + |b| ==> At(b, q) == At(b0, q))
    && (forall q: nat :: p <= q < m ==> At(b, q).op.owner == Lap(q, |b|))
    && (forall j :: 0 <= j < |kept| ==> PlainAt(b, p + nfreed + j, kept[j]))
  }

  lemma SweepStart(e: Env, b: seq<Cqe>, cons: nat, hist: seq<Cqe>, rsn: nat, m: nat)
    requires 0 < |b| && cons <= m <= |hist| && m < cons + |b|
    ensures Sweeping(e, b, b, cons, hist, rsn, m, m, 0) && Freed(e, hist[m..m], rsn) == []
  {
  }

  /** The entry that the sweep looks at next has not been moved yet. */
  lemma SweepLook(e: Env, b0: seq<Cqe>, b: seq<Cqe>, cons: nat, hist: seq<Cqe>, rsn: nat, p: nat, m: nat, nfreed: nat)
    requires Sweeping(e, b0, b, cons, hist, rsn, p + 1, m, nfreed) && cons <= p && PlainAt(b0, p, hist[p])
    ensures At(b, p) == b[p % |b|] == At(b0, p) && p + nfreed < cons + |b| && |b| == |b0|
    ensures Matches(e, At(b, p), rsn) == Matches(e, hist[p], rsn)
    ensures Freed(e, hist[p..m], rsn) == Freed(e, hist[p + 1..m], rsn) +
      (if Matches(e, At(b, p), rsn) && ReturnsWqe(e, At(b, p)) then [At(b, p).wqeCounter] else [])
  {
    assert hist[p..m][1..] == hist[p + 1..m];
  }

  lemma AllPlain(e: Env, b: seq<Cqe>, cons: nat, hist: seq<Cqe>, info: seq<Info>)
    requires Inv(e, b, cons, 0, hist, info) && forall p :: cons <= p < |hist| ==> info[p].Plain?
    ensures forall p :: cons <= p < |hist| ==> PlainAt(b, p, hist[p])
  {
    forall p | cons <= p < |hist|
      ensures PlainAt(b, p, hist[p])
    {
      assert Untouched(e, b, info, hist, p);
    }
  }

  /** One step of the sweep. */
  lemma SweepStep(e: Env, b0: seq<Cqe>, b: seq<Cqe>, b': seq<Cqe>, cons: nat, hist: seq<Cqe>, rsn: nat, p: nat, m: nat,
                  nfreed: nat)
    requires Sweeping(e, b0, b, cons, hist, rsn, p + 1, m, nfreed) && cons <= p
    requires PlainAt(b0, p, hist[p]) && |b'| == |b|
    requires var hit := Matches(e, hist[p], rsn);
      if hit || nfreed == 0 then b' == b
      else forall q: nat :: cons <= q < cons + |b| ==>
        At(b', q) == if q == p + nfreed then At(b, p).(op := At(b, p).op.(owner := At(b, q).op.owner)) else At(b, q)
    ensures Sweeping(e, b0, b', cons, hist, rsn, p, m, if Matches(e, hist[p], rsn) then nfreed + 1 else nfreed)
  {
    hide Keep, At, Lap, Matches;
    var kept, kept' := Keep(e, hist[p + 1..m], rsn), Keep(e, hist[p..m], rsn);
    KeepFirst(e, hist, rsn, p, m);
    assert At(b, p) == At(b0, p);
    if !Matches(e, hist[p], rsn) {
      assert kept' == [hist[p]] + kept;
      forall j | 0 <= j < |kept'|
        ensures PlainAt(b', p + nfreed + j, kept'[j])
      {
        if j > 0 {
          assert PlainAt(b, p + 1 + nfreed + (j - 1), kept[j - 1]);
        }
      }
    } else {
      assert kept' == kept;
    }
  }

  lemma KeepFirst(e: Env, hist: seq<Cqe>, rsn: nat, p: nat, m: nat)
    requires p < m <= |hist|
    ensures Keep(e, hist[p..m], rsn)
      == (if Matches(e, hist[p], rsn) then [] else [hist[p]]) + Keep(e, hist[p + 1..m], rsn)
  {
    assert hist[p..m][1..] == hist[p + 1..m];
  }

  /** The end of the sweep: advancing `cons` over the freed positions leaves a well-formed
      queue whose pending completions are the survivors. */
  lemma SweepDone(e: Env, b0: seq<Cqe>, b: seq<Cqe>, cons: nat, hist: seq<Cqe>, info: seq<Info>, rsn: nat, m: nat,
                  nfreed: nat, hist': seq<Cqe>)
    requires Inv(e, b0, cons, 0, hist, info) && (forall p :: cons <= p < |hist| ==> info[p].Plain?)
    requires Sweeping(e, b0, b, cons, hist, rsn, cons, m, nfreed)
    requires hist' == hist[..cons + nfreed] + Keep(e, hist[cons..m], rsn) + hist[m..]
    requires m == cons + Swept(|hist| - cons, |b|)
    ensures |hist'| == |hist| && Inv(e, b, cons + nfreed, 0, hist', info)
    ensures hist'[cons + nfreed..] == Cleaned(e, hist[cons..], rsn, |b|)
    ensures hist[cons..][..m - cons] == hist[cons..m]
  {
    hide Keep, At, Lap, Strip;
    assert hist[cons..][m - cons..] == hist[m..] && hist[cons..][..m - cons] == hist[cons..m];
    var kept := Keep(e, hist[cons..m], rsn);
    forall p | cons + nfreed <= p < |hist|
      ensures WellFormed(info, hist', e, |b|, p) && Untouched(e, b, info, hist', p)
    {
      if p < m {
        assert hist'[p] == kept[p - cons - nfreed];
        assert PlainAt(b, cons + nfreed + (p - cons - nfreed), kept[p - cons - nfreed]);
      } else {
        assert Untouched(e, b0, info, hist, p) && hist'[p] == hist[p];
      }
    }
    forall q | |hist| <= q < cons + nfreed + |b|
      ensures !SwOwned(b, q)
    {
      if q < cons + |b| {
        assert !SwOwned(b0, q);
      } else {
        ConsumedIsNotOwned(b, q - |b|);
      }
    }
  }
}
