/** Pushing requests through a virtual queue: in batches on a client queue that may move from
    DC to RC meanwhile, and with per-peer accounting on a bound (server) queue. */
module VirtualQueues {
  import opened Common

  const DEFAULT_BATCH_SZ: nat := 64
  const HOST_LEN: nat := 12

  datatype Status = Ok | Err | Nil

  datatype OpCode = Read | Write | WriteWithImm | SendMsg | SendWithImm

  /** A request of the caller. */
  datatype Req = Req(op: OpCode, addr: nat, remoteAddr: nat, length: nat, vid: nat, flagged: bool)

  datatype Transport = Rc | Dc | Ud

  /** A work request as posted: the request's own data, whether it is sent inline and whether it is signalled. */
  datatype Posted = Posted(transport: Transport, op: OpCode, laddr: nat, length: nat, raddr: nat, imm: nat,
                           inlined: bool, signaled: bool)

  /** The memory regions of the queue: the local one, and the remote one of each transport; `va` maps physical
      addresses to kernel addresses, used for inline data. */
  datatype Regions = Regions(localPa: nat, rcRemote: nat, dcRemote: nat, va: nat -> nat)

  function Inlined(r: Req): bool {
    r.length < 64 && (r.op == Write || r.op == WriteWithImm)
  }

  function Translate(m: Regions, t: Transport, r: Req): Posted {
    var pa := m.localPa + r.addr;
    Posted(t, r.op, if Inlined(r) then m.va(pa) else pa, r.length,
           r.remoteAddr + (if t == Rc then m.rcRemote else m.dcRemote),
           if t == Rc then r.vid else 0, Inlined(r), r.flagged)
  }

  /** The postings of a list of requests, all on one transport. */
  function TranslateAll(m: Regions, t: Transport, reqs: seq<Req>): (r: seq<Posted>)
    ensures |r| == |reqs|
    ensures forall i :: 0 <= i < |r| ==> r[i] == Translate(m, t, reqs[i])
  {
    seq(|reqs|, i requires 0 <= i < |reqs| => Translate(m, t, reqs[i]))
  }

  // ---------------------------------------------------------------- what both ends see of a posting

  /** Where the peer's region begins, as a transport addresses it. */
  function RemoteBase(m: Regions, t: Transport): nat {
    match t case Rc => m.rcRemote case Dc => m.dcRemote case Ud => 0
  }

  /** An operation on the bytes of the peer's region from an offset on, with local bytes, reported or not. */
  datatype Effect = Effect(op: OpCode, offset: int, local: seq<byte>, signaled: bool)

  function Bytes(mem: nat -> byte, addr: nat, n: nat): seq<byte> {
    seq(n, j requires 0 <= j => mem(addr + j))
  }

  /** Physical and kernel addresses lead to the same memory. */
  ghost predicate Coherent(m: Regions, phys: nat -> byte, kern: nat -> byte) {
    forall pa: nat, n: nat :: Bytes(kern, m.va(pa), n) == Bytes(phys, pa, n)
  }

  /** What posting `w` does: inline data is read through its kernel address. */
  function Seen(m: Regions, phys: nat -> byte, kern: nat -> byte, w: Posted): Effect {
    Effect(w.op, w.raddr - RemoteBase(m, w.transport), Bytes(if w.inlined then kern else phys, w.laddr, w.length),
           w.signaled)
  }

  /** What the caller asked for: `addr` and `remoteAddr` are offsets into the two regions. */
  function Wanted(m: Regions, phys: nat -> byte, r: Req): Effect {
    Effect(r.op, r.remoteAddr, Bytes(phys, m.localPa + r.addr, r.length), r.flagged)
  }

  /** Posting `w` does what request `r` asks for, whatever memory holds; over RC it carries the virtual id, and just
      the short writes are inline. */
  ghost predicate Serves(m: Regions, w: Posted, r: Req) {
    && (forall phys: nat -> byte, kern: nat -> byte :: Coherent(m, phys, kern) ==>
          Seen(m, phys, kern, w) == Wanted(m, phys, r))
    && w.imm == (match w.transport case Rc => r.vid case Dc => 0 case Ud => 0)
    && (w.inlined <==> r.length <= 63 && r.op in {Write, WriteWithImm})
  }

  lemma TranslateServes(m: Regions, t: Transport, r: Req)
    requires t != Ud
    ensures Serves(m, Translate(m, t, r), r) && Translate(m, t, r).transport == t
  {
    var w := Translate(m, t, r);
    forall phys: nat -> byte, kern: nat -> byte | Coherent(m, phys, kern)
      ensures Seen(m, phys, kern, w) == Wanted(m, phys, r)
    {
      hide Bytes;
    }
  }

  // ---------------------------------------------------------------- client queues

  /** How a client queue stands when a push begins: connected over DC, migrated to RC; and `migrates(k)`, whether the
      migration happens just before batch `k`. */
  datatype Path = Path(dc: bool, rc: bool, migrates: nat -> bool)

  /** The queue has migrated when batch `k` is taken. */
  predicate MovedBy(p: Path, k: nat) {
    p.rc || p.migrates(k) || (k > 0 && MovedBy(p, k - 1))
  }

  /** What carries batch `k`. */
  function Route(p: Path, k: nat): Option<Transport> {
    if MovedBy(p, k) then Some(Rc) else if p.dc then Some(Dc) else None
  }

  /** What is posted for the first `n` requests. */
  function Routed(m: Regions, p: Path, reqs: seq<Req>, n: nat): seq<Posted>
    requires n <= |reqs|
  {
    if n == 0 then [] else
      Routed(m, p, reqs, n - 1) +
      match Route(p, (n - 1) / DEFAULT_BATCH_SZ) case None => [] case Some(t) => [Translate(m, t, reqs[n - 1])]
  }

  /** With `was` postings made before, the provider refuses request `i`. */
  ghost predicate Refused(m: Regions, p: Path, reqs: seq<Req>, i: nat, was: nat, refuses: nat -> bool)
    requires i < |reqs|
  {
    Route(p, i / DEFAULT_BATCH_SZ).Some? && refuses(was + |Routed(m, p, reqs, i)|)
  }

  /** A push of `total` requests, of which it took `taken`, before it waits for a completion. */
  ghost function Answer(p: Path, total: nat, taken: nat, recv: Status): Status {
    if taken < total then Err
    else if total == 0 then recv
    else if Route(p, (total - 1) / DEFAULT_BATCH_SZ).Some? then Ok else Nil
  }

  class VQ {
    var rc: bool          // migrated to RC
    const dc: bool        // connected over DC
    const m: Regions
    var posted: seq<Posted>

    constructor (dc: bool, m: Regions)
      ensures !rc && this.dc == dc && this.m == m && posted == []
    {
      rc, this.dc, this.m, posted := false, dc, m, [];
    }

    /** Posts a batch until one is refused; `refuses(n)`: the provider refuses the posting that would be number `n`. */
    method PushOn(t: Transport, reqs: seq<Req>, refuses: nat -> bool) returns (res: Status, ghost n: nat)
      modifies `posted
      ensures Sent(m, t, old(posted), posted, reqs, refuses, res, n)
    {
      res, n := Ok, 0;
      var idx := 0;
      while idx < |reqs|
        invariant n == idx <= |reqs| && posted == old(posted) + TranslateAll(m, t, reqs[..idx]) && res == Ok
        invariant forall i :: |old(posted)| <= i < |posted| ==> !refuses(i)
      {
        if refuses(|posted|) {
          res := Err;
          break;
        }
        posted := posted + [Translate(m, t, reqs[idx])];
        idx, n := idx + 1, n + 1;
        assert TranslateAll(m, t, reqs[..idx])
          == TranslateAll(m, t, reqs[..idx - 1]) + [Translate(m, t, reqs[idx - 1])];
      }
    }

    method RcPush(reqs: seq<Req>, refuses: nat -> bool) returns (res: Status, ghost n: nat)
      modifies `posted
      ensures !rc ==> res == Nil && posted == old(posted)
      ensures rc ==> Sent(m, Rc, old(posted), posted, reqs, refuses, res, n)
    {
      if !rc { return Nil, 0; }
      res, n := PushOn(Rc, reqs, refuses);
    }

    method DcPush(reqs: seq<Req>, refuses: nat -> bool) returns (res: Status, ghost n: nat)
      modifies `posted
      ensures !dc ==> res == Nil && posted == old(posted)
      ensures dc ==> Sent(m, Dc, old(posted), posted, reqs, refuses, res, n)
    {
      if !dc { return Nil, 0; }
      res, n := PushOn(Dc, reqs, refuses);
    }

    /** Batch `k`, by what the queue is connected over when it is taken. */
    method PushBatch(k: nat, reqs: seq<Req>, migrates: nat -> bool, refuses: nat -> bool)
        returns (ret: Status, ghost n: nat)
      modifies this
      ensures rc == (old(rc) || migrates(k))
      ensures rc || dc ==> Sent(m, if rc then Rc else Dc, old(posted), posted, reqs, refuses, ret, n)
      ensures !rc && !dc ==> ret == Nil && posted == old(posted)
    {
      hide Sent;
      if migrates(k) { rc := true; }
      if rc {
        ret, n := RcPush(reqs, refuses);
      } else {
        ret, n := DcPush(reqs, refuses);
      }
    }

    /** The push command on a client queue. `recv`: the outcome of posting receives first, ok if none were asked for;
        `migrates(k)`: the queue moves to RC before batch `k`; `completes`: the completion waited for arrives.
        The requests are taken in order up to the first one refused; those of a batch that nothing carries are
        dropped. */
    method Push(reqs: seq<Req>, recv: Status, popAtOnce: bool, migrates: nat -> bool, refuses: nat -> bool,
                completes: bool)
        returns (ret: Status, sizes: seq<nat>, ghost taken: nat)
      modifies this
      ensures Pushed(m, Path(dc, old(rc), migrates), reqs, old(posted), posted, refuses, taken)
      ensures taken < |reqs| ==> Refused(m, Path(dc, old(rc), migrates), reqs, taken, |old(posted)|, refuses)
      ensures var answer := Answer(Path(dc, old(rc), migrates), |reqs|, taken, recv);
        ret == if answer == Ok && popAtOnce && !completes then Err else answer
      ensures rc == if sizes == [] then old(rc) else MovedBy(Path(dc, old(rc), migrates), |sizes| - 1)
      ensures Cut(sizes, |reqs|) && taken <= Sum(sizes)
      ensures dc || MovedBy(Path(dc, old(rc), migrates), 0) ==> Served(m, reqs, old(posted), posted, taken)
    {
      hide Routed, Refused, Route, MovedBy, TranslateAll, Sent, Sum, Batched, Pushed, Cut, Served;
      ret, sizes := recv, [];
      var offset, k := 0, 0;
      ghost var p, start := Path(dc, rc, migrates), posted;
      taken := 0;
      PushStart(m, p, reqs, start, refuses);
      while offset < |reqs|
        invariant k == |sizes| && Batched(|reqs|, k, offset) && taken == offset <= |reqs|
        invariant rc == if k == 0 then old(rc) else MovedBy(p, k - 1)
        invariant Pushed(m, p, reqs, start, posted, refuses, offset)
        invariant Cut(sizes, |reqs|) && Sum(sizes) == offset
        invariant ret == if k == 0 then recv else if Route(p, k - 1).Some? then Ok else Nil
      {
        var len := if DEFAULT_BATCH_SZ < |reqs| - offset then DEFAULT_BATCH_SZ else |reqs| - offset;
        ghost var was, n := posted, 0;
        ret, n := PushBatch(k, reqs[offset..offset + len], migrates, refuses);
        BatchMore(|reqs|, k, offset, len);
        CutMore(sizes, |reqs|, len);
        PushStep(m, p, reqs, start, was, posted, refuses, k, offset, len, rc, ret, n);
        offset, sizes, k := offset + len, sizes + [len], k + 1;
        if ret == Err {
          taken := taken + n;
          PushServes(m, p, reqs, start, posted, refuses, taken);
          return;
        }
        taken := offset;
      }
      LastBatch(|reqs|, k);
      PushServes(m, p, reqs, start, posted, refuses, taken);
      if popAtOnce && ret == Ok && !completes {
        ret := Err;
      }
    }
  }

  /** The outcome of posting a batch: its first `n` requests went out on `t`, all of it if the answer is ok, and
      otherwise up to the first one refused. */
  ghost predicate Sent(m: Regions, t: Transport, was: seq<Posted>, now: seq<Posted>, reqs: seq<Req>,
                       refuses: nat -> bool, res: Status, n: nat) {
    && n <= |reqs| && now == was + TranslateAll(m, t, reqs[..n])
    && (forall i :: |was| <= i < |was| + n ==> !refuses(i))
    && (res == Ok || res == Err) && (res == Ok <==> n == |reqs|) && (n < |reqs| ==> refuses(|was| + n))
  }

  ghost function Sum(s: seq<nat>): nat {
    if s == [] then 0 else Sum(s[..|s| - 1]) + s[|s| - 1]
  }

  lemma SumMore(s: seq<nat>, x: nat)
    ensures Sum(s + [x]) == Sum(s) + x
  {
    assert (s + [x])[..|s|] == s;
  }

  /** `k` batches have been taken, up to request `offset`. */
  ghost predicate Batched(total: nat, k: nat, offset: nat) {
    && offset == (if DEFAULT_BATCH_SZ * k < total then DEFAULT_BATCH_SZ * k else total)
    && (k > 0 ==> DEFAULT_BATCH_SZ * (k - 1) < total)
  }

  lemma BatchMore(total: nat, k: nat, offset: nat, len: nat)
    requires Batched(total, k, offset) && offset < total
    requires len == if DEFAULT_BATCH_SZ < total - offset then DEFAULT_BATCH_SZ else total - offset
    ensures Batched(total, k + 1, offset + len) && offset == DEFAULT_BATCH_SZ * k
  {
  }

  /** The last batch is that of the last request. */
  lemma LastBatch(total: nat, k: nat)
    requires Batched(total, k, total)
    ensures if total == 0 then k == 0 else k > 0 && (total - 1) / DEFAULT_BATCH_SZ == k - 1
  {
  }

  /** Batches cut from a list of `total` requests: each is as long as can be, at most 64. */
  ghost predicate Cut(sizes: seq<nat>, total: nat) {
    && Sum(sizes) <= total
    && forall i :: 0 <= i < |sizes| ==>
      0 < sizes[i] <= DEFAULT_BATCH_SZ && (i + 1 < |sizes| || Sum(sizes) < total ==> sizes[i] == DEFAULT_BATCH_SZ)
  }

  lemma CutMore(sizes: seq<nat>, total: nat, len: nat)
    requires Cut(sizes, total) && Sum(sizes) < total
    requires len == if DEFAULT_BATCH_SZ < total - Sum(sizes) then DEFAULT_BATCH_SZ else total - Sum(sizes)
    ensures Cut(sizes + [len], total) && Sum(sizes + [len]) == Sum(sizes) + len
  {
    SumMore(sizes, len);
  }

  /** The requests below `offset` have been taken and none of them was refused. */
  ghost predicate Pushed(m: Regions, p: Path, reqs: seq<Req>, start: seq<Posted>, now: seq<Posted>,
                         refuses: nat -> bool, offset: nat) {
    && offset <= |reqs| && now == start + Routed(m, p, reqs, offset)
    && forall i :: 0 <= i < offset ==> !Refused(m, p, reqs, i, |start|, refuses)
  }

  lemma PushStart(m: Regions, p: Path, reqs: seq<Req>, start: seq<Posted>, refuses: nat -> bool)
    ensures Pushed(m, p, reqs, start, start, refuses, 0) && Cut([], |reqs|) && Sum([]) == 0 && Batched(|reqs|, 0, 0)
  {
  }

  lemma RouteNow(p: Path, k: nat, rc: bool, dc: bool)
    requires dc == p.dc && rc == (p.migrates(k) || if k == 0 then p.rc else MovedBy(p, k - 1))
    ensures rc == MovedBy(p, k) && Route(p, k) == if rc then Some(Rc) else if dc then Some(Dc) else None
  {
    if k > 0 { StaysMoved(p, 0, k - 1); }
  }

  lemma {:induction false} StaysMoved(p: Path, j: nat, k: nat)
    requires j <= k
    ensures MovedBy(p, j) || p.rc ==> MovedBy(p, k)
  {
    if j < k { StaysMoved(p, j, k - 1); }
  }

  /** One more request of batch `k`. */
  lemma RoutedNext(m: Regions, p: Path, reqs: seq<Req>, k: nat, i: nat)
    requires DEFAULT_BATCH_SZ * k <= i < DEFAULT_BATCH_SZ * (k + 1) && i < |reqs|
    ensures i / DEFAULT_BATCH_SZ == k
    ensures Routed(m, p, reqs, i + 1) ==
      Routed(m, p, reqs, i) + match Route(p, k) case None => [] case Some(t) => [Translate(m, t, reqs[i])]
  {
  }

  /** The first `n` requests of batch `k`. */
  lemma {:induction false} RoutedBatch(m: Regions, p: Path, reqs: seq<Req>, k: nat, n: nat)
    requires n <= DEFAULT_BATCH_SZ && DEFAULT_BATCH_SZ * k + n <= |reqs|
    ensures var o := DEFAULT_BATCH_SZ * k;
      Routed(m, p, reqs, o + n) ==
      Routed(m, p, reqs, o) + match Route(p, k) case None => [] case Some(t) => TranslateAll(m, t, reqs[o..o + n])
  {
    hide Routed, Route, Translate;
    var o := DEFAULT_BATCH_SZ * k;
    var before := Routed(m, p, reqs, o);
    if n == 0 {
      match Route(p, k)
      case None => assert before + [] == before;
      case Some(t) =>
        assert TranslateAll(m, t, reqs[o..o]) == [];
        assert before + [] == before;
    } else {
      RoutedBatch(m, p, reqs, k, n - 1);
      RoutedNext(m, p, reqs, k, o + n - 1);
      match Route(p, k)
      case None => assert before + [] == before;
      case Some(t) =>
        var more := TranslateAll(m, t, reqs[o..o + n - 1]);
        assert TranslateAll(m, t, reqs[o..o + n]) == more + [Translate(m, t, reqs[o + n - 1])];
        assert before + more + [Translate(m, t, reqs[o + n - 1])]
          == before + (more + [Translate(m, t, reqs[o + n - 1])]);
    }
  }

  /** Request `o + n` of batch `k` would be posting number `n` of the batch. */
  lemma RefusedAt(m: Regions, p: Path, reqs: seq<Req>, k: nat, n: nat, was: nat, refuses: nat -> bool)
    requires n < DEFAULT_BATCH_SZ && DEFAULT_BATCH_SZ * k + n < |reqs|
    ensures var o := DEFAULT_BATCH_SZ * k;
      Refused(m, p, reqs, o + n, was, refuses) <==> Route(p, k).Some? && refuses(was + |Routed(m, p, reqs, o)| + n)
  {
    hide Routed, Route, TranslateAll;
    RoutedBatch(m, p, reqs, k, n);
    RoutedNext(m, p, reqs, k, DEFAULT_BATCH_SZ * k + n);
    var o := DEFAULT_BATCH_SZ * k;
    match Route(p, k)
    case None =>
    case Some(t) => assert |TranslateAll(m, t, reqs[o..o + n])| == n;
  }

  lemma PushMore(m: Regions, p: Path, reqs: seq<Req>, start: seq<Posted>, was: seq<Posted>, now: seq<Posted>,
                 refuses: nat -> bool, k: nat, offset: nat, len: nat, ret: Status, n: nat)
    requires Pushed(m, p, reqs, start, was, refuses, offset) && offset == DEFAULT_BATCH_SZ * k
    requires len <= DEFAULT_BATCH_SZ && offset + len <= |reqs| && Route(p, k).Some?
    requires Sent(m, Route(p, k).value, was, now, reqs[offset..offset + len], refuses, ret, n)
    ensures ret == Ok ==> Pushed(m, p, reqs, start, now, refuses, offset + len)
    ensures ret == Err ==> n < len
    ensures ret == Err ==> Pushed(m, p, reqs, start, now, refuses, offset + n)
    ensures ret == Err ==> Refused(m, p, reqs, offset + n, |start|, refuses)
    ensures ret == Ok || ret == Err
  {
    hide Routed, Refused, Route, TranslateAll, MovedBy;
    var t := Route(p, k).value;
    var before := Routed(m, p, reqs, offset);
    RoutedBatch(m, p, reqs, k, n);
    assert reqs[offset..offset + len][..n] == reqs[offset..offset + n];
    assert start + before + TranslateAll(m, t, reqs[offset..offset + n])
      == start + (before + TranslateAll(m, t, reqs[offset..offset + n]));
    forall i | 0 <= i < offset + n
      ensures !Refused(m, p, reqs, i, |start|, refuses)
    {
      if i >= offset { RefusedAt(m, p, reqs, k, i - offset, |start|, refuses); }
    }
    if n < len { RefusedAt(m, p, reqs, k, n, |start|, refuses); }
  }

  lemma PushNothing(m: Regions, p: Path, reqs: seq<Req>, start: seq<Posted>, now: seq<Posted>, refuses: nat -> bool,
                    k: nat, offset: nat, len: nat)
    requires Pushed(m, p, reqs, start, now, refuses, offset) && offset == DEFAULT_BATCH_SZ * k
    requires len <= DEFAULT_BATCH_SZ && offset + len <= |reqs| && Route(p, k).None?
    ensures Pushed(m, p, reqs, start, now, refuses, offset + len)
  {
    hide Routed, Refused, Route;
    RoutedBatch(m, p, reqs, k, len);
    assert Routed(m, p, reqs, offset) + [] == Routed(m, p, reqs, offset);
    forall i | 0 <= i < offset + len
      ensures !Refused(m, p, reqs, i, |start|, refuses)
    {
      if i >= offset { RefusedAt(m, p, reqs, k, i - offset, |start|, refuses); }
    }
  }

  lemma PushStep(m: Regions, p: Path, reqs: seq<Req>, start: seq<Posted>, was: seq<Posted>, now: seq<Posted>,
                 refuses: nat -> bool, k: nat, offset: nat, len: nat, rc: bool, ret: Status, n: nat)
    requires Pushed(m, p, reqs, start, was, refuses, offset) && offset == DEFAULT_BATCH_SZ * k
    requires 0 < len <= DEFAULT_BATCH_SZ && offset + len <= |reqs|
    requires rc == (p.migrates(k) || if k == 0 then p.rc else MovedBy(p, k - 1))
    requires rc || p.dc ==> Sent(m, if rc then Rc else Dc, was, now, reqs[offset..offset + len], refuses, ret, n)
    requires !rc && !p.dc ==> ret == Nil && now == was
    ensures rc == MovedBy(p, k) && (ret != Err ==> ret == if Route(p, k).Some? then Ok else Nil)
    ensures ret != Err ==> Pushed(m, p, reqs, start, now, refuses, offset + len)
    ensures ret == Err ==> n < len
    ensures ret == Err ==> Pushed(m, p, reqs, start, now, refuses, offset + n)
    ensures ret == Err ==> Refused(m, p, reqs, offset + n, |start|, refuses)
  {
    hide Pushed, Sent, Refused, MovedBy, Route;
    RouteNow(p, k, rc, p.dc);
    if rc || p.dc {
      PushMore(m, p, reqs, start, was, now, refuses, k, offset, len, ret, n);
    } else {
      PushNothing(m, p, reqs, start, now, refuses, k, offset, len);
    }
  }

  /** On a queue that is connected when the first batch is taken, every request is posted, each once and in order;
      request `i` goes over RC exactly when the queue had migrated by its batch, whenever that was. */
  lemma {:induction false} ConnectedPush(m: Regions, p: Path, reqs: seq<Req>, n: nat)
    requires n <= |reqs| && (p.dc || MovedBy(p, 0))
    ensures |Routed(m, p, reqs, n)| == n
    ensures forall i :: 0 <= i < n ==>
      Routed(m, p, reqs, n)[i] == Translate(m, if MovedBy(p, i / DEFAULT_BATCH_SZ) then Rc else Dc, reqs[i])
  {
    hide Translate, MovedBy;
    if n > 0 {
      ConnectedPush(m, p, reqs, n - 1);
      StaysMoved(p, 0, (n - 1) / DEFAULT_BATCH_SZ);
    }
  }

  /** The first `taken` requests, and no others, are served by the postings made since `start`, each by one. */
  ghost predicate Served(m: Regions, reqs: seq<Req>, start: seq<Posted>, now: seq<Posted>, taken: nat) {
    && taken <= |reqs| && |now| == |start| + taken && start <= now
    && forall i :: 0 <= i < taken ==> Serves(m, now[|start| + i], reqs[i])
  }

  /** Whenever a connected queue migrates, what both ends see is what was asked for. */
  lemma PushServes(m: Regions, p: Path, reqs: seq<Req>, start: seq<Posted>, now: seq<Posted>, refuses: nat -> bool,
                   taken: nat)
    requires Pushed(m, p, reqs, start, now, refuses, taken)
    ensures p.dc || MovedBy(p, 0) ==> Served(m, reqs, start, now, taken)
  {
    hide Refused, Serves, Translate, Routed, MovedBy;
    if p.dc || MovedBy(p, 0) {
      ConnectedPush(m, p, reqs, taken);
      forall i | 0 <= i < taken
        ensures Serves(m, now[|start| + i], reqs[i])
      {
        TranslateServes(m, if MovedBy(p, i / DEFAULT_BATCH_SZ) then Rc else Dc, reqs[i]);
      }
    }
  }

  /** A queue that nothing connects posts nothing before batch `k` if it has not migrated by then. */
  lemma {:induction false} NothingYet(m: Regions, p: Path, reqs: seq<Req>, k: nat, n: nat)
    requires !p.dc && !MovedBy(p, k) && n <= |reqs| && n <= DEFAULT_BATCH_SZ * (k + 1)
    ensures Routed(m, p, reqs, n) == []
  {
    if n > 0 {
      NothingYet(m, p, reqs, k, n - 1);
      StaysMoved(p, (n - 1) / DEFAULT_BATCH_SZ, k);
    }
  }

  /** If its migration is seen first by batch `k`, it posts the requests from that batch on, over RC, and no others. */
  lemma {:induction false} UnconnectedPush(m: Regions, p: Path, reqs: seq<Req>, k: nat, n: nat)
    requires !p.dc && MovedBy(p, k) && (k > 0 ==> !MovedBy(p, k - 1))
    requires DEFAULT_BATCH_SZ * k <= n <= |reqs|
    ensures Routed(m, p, reqs, n) == TranslateAll(m, Rc, reqs[DEFAULT_BATCH_SZ * k..n])
  {
    hide Translate, MovedBy;
    var o := DEFAULT_BATCH_SZ * k;
    if n == o {
      if k > 0 { NothingYet(m, p, reqs, k - 1, n); }
    } else {
      UnconnectedPush(m, p, reqs, k, n - 1);
      StaysMoved(p, k, (n - 1) / DEFAULT_BATCH_SZ);
      assert TranslateAll(m, Rc, reqs[o..n]) == TranslateAll(m, Rc, reqs[o..n - 1]) + [Translate(m, Rc, reqs[n - 1])];
    }
  }

  lemma {:induction false} AtMostEach(m: Regions, p: Path, reqs: seq<Req>, n: nat)
    requires n <= |reqs|
    ensures |Routed(m, p, reqs, n)| <= n
    ensures n > 0 && !(p.dc || MovedBy(p, 0)) ==> |Routed(m, p, reqs, n)| < n
  {
    hide Translate, MovedBy;
    if n > 0 { AtMostEach(m, p, reqs, n - 1); }
  }

  /** Everything that is taken is posted exactly when the queue is connected at the first batch. */
  lemma AllPosted(m: Regions, p: Path, reqs: seq<Req>)
    ensures |Routed(m, p, reqs, |reqs|)| == |reqs| <==> p.dc || MovedBy(p, 0) || reqs == []
  {
    hide Routed, MovedBy;
    AtMostEach(m, p, reqs, |reqs|);
    if p.dc || MovedBy(p, 0) { ConnectedPush(m, p, reqs, |reqs|); }
  }

  /** Sixty-five requests on a queue that is connected between the first batch and the second: the answer is ok, and
      only the last request was posted. */
  method LostBatch(m: Regions, r: Req) returns (q: VQ, ret: Status)
    ensures ret == Ok && q.posted == [Translate(m, Rc, r)]
  {
    hide Routed, TranslateAll, Translate;
    q := new VQ(false, m);
    var reqs, migrates := seq(65, _ => r), k => k == 1;
    var sizes;
    ghost var taken;
    ret, sizes, taken := q.Push(reqs, Ok, true, migrates, _ => false, true);
    ghost var p := Path(false, false, migrates);
    assert !MovedBy(p, 0) && MovedBy(p, 1);
    UnconnectedPush(m, p, reqs, 1, 65);
    OneTranslated(m, reqs[64..65]);
  }

  lemma OneTranslated(m: Regions, reqs: seq<Req>)
    requires |reqs| == 1
    ensures TranslateAll(m, Rc, reqs) == [Translate(m, Rc, reqs[0])]
  {
  }

  // ---------------------------------------------------------------- bound queues

  /** What a push on a bound queue does, in order. */
  datatype Event =
    | Post(vid: nat, t: Transport, signaled: bool)
    | Repost(vid: nat, t: Transport, count: nat)    // receives posted again
    | Wait(vid: nat, t: Transport)                  // a completion waited for

  /** What one event adds to the sends, signalled sends, reposted receives and waits of (v, t). */
  ghost function Send(e: Event, v: nat, t: Transport): nat {
    if e.Post? && e.vid == v && e.t == t then 1 else 0
  }

  ghost function Signal(e: Event, v: nat, t: Transport): nat {
    if e.Post? && e.vid == v && e.t == t && e.signaled then 1 else 0
  }

  ghost function Again(e: Event, v: nat, t: Transport): nat {
    if e.Repost? && e.vid == v && e.t == t then e.count else 0
  }

  ghost function Awaited(e: Event, v: nat, t: Transport): nat {
    if e.Wait? && e.vid == v && e.t == t then 1 else 0
  }

  ghost function Sends(log: seq<Event>, v: nat, t: Transport): nat {
    if log == [] then 0 else Sends(log[..|log| - 1], v, t) + Send(log[|log| - 1], v, t)
  }

  ghost function Signals(log: seq<Event>, v: nat, t: Transport): nat {
    if log == [] then 0 else Signals(log[..|log| - 1], v, t) + Signal(log[|log| - 1], v, t)
  }

  ghost function Reposts(log: seq<Event>, v: nat, t: Transport): nat {
    if log == [] then 0 else Reposts(log[..|log| - 1], v, t) + Again(log[|log| - 1], v, t)
  }

  ghost function Waits(log: seq<Event>, v: nat, t: Transport): nat {
    if log == [] then 0 else Waits(log[..|log| - 1], v, t) + Awaited(log[|log| - 1], v, t)
  }

  /** The tallies of (v, t) after one more event. */
  lemma Tally(log: seq<Event>, e: Event, v: nat, t: Transport)
    ensures Sends(log + [e], v, t) == Sends(log, v, t) + Send(e, v, t)
    ensures Signals(log + [e], v, t) == Signals(log, v, t) + Signal(e, v, t)
    ensures Reposts(log + [e], v, t) == Reposts(log, v, t) + Again(e, v, t)
    ensures Waits(log + [e], v, t) == Waits(log, v, t) + Awaited(e, v, t)
  {
    assert (log + [e])[..|log|] == log;
  }

  /** The first send to each (v, t), and no other, is signalled. */
  ghost predicate FirstSignalled(log: seq<Event>) {
    forall i :: 0 <= i < |log| && log[i].Post? ==> log[i].signaled == (Sends(log[..i], log[i].vid, log[i].t) == 0)
  }

  /** The sends of a batch: peer `v` is served over RC once it is bound; nothing reposted or waited for yet. */
  ghost predicate Sending(log: seq<Event>, ud: seq<nat>, rc: seq<nat>) {
    && |ud| == |rc| == HOST_LEN && FirstSignalled(log)
    && forall v: nat, t: Transport :: Tallied(log, ud, rc, v, t)
  }

  ghost predicate Tallied(log: seq<Event>, ud: seq<nat>, rc: seq<nat>, v: nat, t: Transport)
    requires |ud| == |rc| == HOST_LEN
  {
    && Sends(log, v, t) == (if v >= HOST_LEN || t == Dc then 0 else if t == Ud then ud[v] else rc[v])
    && Signals(log, v, t) == (if Sends(log, v, t) > 0 then 1 else 0)
    && Reposts(log, v, t) == 0 && Waits(log, v, t) == 0
  }

  lemma SendStart(ud: seq<nat>, rc: seq<nat>)
    requires |ud| == |rc| == HOST_LEN && forall v :: 0 <= v < HOST_LEN ==> ud[v] == rc[v] == 0
    ensures Sending([], ud, rc)
  {
  }

  lemma SendMore(log: seq<Event>, ud: seq<nat>, rc: seq<nat>, v: nat, t: Transport)
    requires Sending(log, ud, rc) && v < HOST_LEN && t != Dc
    ensures var n := if t == Ud then ud[v] else rc[v];
      Sending(log + [Post(v, t, n == 0)],
              if t == Ud then ud[v := n + 1] else ud, if t == Rc then rc[v := n + 1] else rc)
  {
    hide Sends, Signals, Reposts, Waits;
    var n := if t == Ud then ud[v] else rc[v];
    var e, log' := Post(v, t, n == 0), log + [Post(v, t, n == 0)];
    assert Tallied(log, ud, rc, v, t);
    var ud', rc' := if t == Ud then ud[v := n + 1] else ud, if t == Rc then rc[v := n + 1] else rc;
    forall v': nat, t': Transport
      ensures Tallied(log', ud', rc', v', t')
    {
      assert Tallied(log, ud, rc, v', t');
      Tally(log, e, v', t');
    }
    forall i | 0 <= i < |log'| && log'[i].Post?
      ensures log'[i].signaled == (Sends(log'[..i], log'[i].vid, log'[i].t) == 0)
    {
      assert log'[..i] == if i < |log| then log[..i] else log;
    }
  }

  /** Event `e` posts request `r` over RC or UD. */
  ghost predicate IsPost(e: Event, r: Req, rc: bool) {
    e.Post? && e.vid == r.vid % HOST_LEN && e.t == if rc then Rc else Ud
  }

  /** The posts of a push. Of the environment, at request `i`: `bound(i)`, whether its peer is served over RC, and
      `refuses(i)`, whether the provider refuses it. */
  method PostAll(reqs: seq<Req>, bound: nat -> bool, refuses: nat -> bool)
      returns (res: Status, log: seq<Event>, ud: array<nat>, rc: array<nat>)
    ensures fresh(ud) && fresh(rc) && ud.Length == rc.Length == HOST_LEN && ud != rc
    ensures res == Ok ==> Sending(log, ud[..], rc[..]) && |log| == |reqs|
    ensures forall i: nat :: i < |log| && i < |reqs| ==> IsPost(log[i], reqs[i], bound(i))
    ensures res == Ok || res == Err
    ensures res == Ok <==> forall i: nat :: i < |reqs| ==> !refuses(i)
  {
    hide Sending;
    res, log := Ok, [];
    ud, rc := new nat[HOST_LEN](_ => 0), new nat[HOST_LEN](_ => 0);
    SendStart(ud[..], rc[..]);
    for idx := 0 to |reqs|
      invariant |log| == idx && Sending(log, ud[..], rc[..]) && fresh(ud) && fresh(rc)
      invariant forall i: nat :: i < |log| ==> IsPost(log[i], reqs[i], bound(i))
      invariant forall i: nat :: i < idx ==> !refuses(i)
    {
      var vid := reqs[idx].vid % HOST_LEN;
      if !bound(idx) {
        SendMore(log, ud[..], rc[..], vid, Ud);
        var signaled := ud[vid] == 0;
        ud[vid] := ud[vid] + 1;
        if refuses(idx) { res := Err; return; }
        log := log + [Post(vid, Ud, signaled)];
      } else {
        SendMore(log, ud[..], rc[..], vid, Rc);
        var signaled := rc[vid] == 0;
        rc[vid] := rc[vid] + 1;
        if refuses(idx) { res := Err; return; }
        log := log + [Post(vid, Rc, signaled)];
      }
    }
  }

  /** After the sends: every peer below `du` (over UD) or `dr` (over RC), except peer 0, has its receives reposted and
      its completion waited for. */
  ghost predicate Settling(log: seq<Event>, ud: seq<nat>, rc: seq<nat>, pop: bool, du: nat, dr: nat) {
    && |ud| == |rc| == HOST_LEN && FirstSignalled(log)
    && forall v: nat, t: Transport :: Settled(log, ud, rc, pop, du, dr, v, t)
  }

  ghost predicate Settled(log: seq<Event>, ud: seq<nat>, rc: seq<nat>, pop: bool, du: nat, dr: nat, v: nat,
                          t: Transport)
    requires |ud| == |rc| == HOST_LEN
  {
    var n := if v >= HOST_LEN || t == Dc then 0 else if t == Ud then ud[v] else rc[v];
    var done := 1 <= v && v < if t == Ud then du else dr;
    && Sends(log, v, t) == n && Signals(log, v, t) == (if n > 0 then 1 else 0)
    && Reposts(log, v, t) == (if done then n else 0) && Waits(log, v, t) == (if done && pop && n > 0 then 1 else 0)
  }

  lemma SettleStart(log: seq<Event>, ud: seq<nat>, rc: seq<nat>, pop: bool)
    requires Sending(log, ud, rc)
    ensures Settling(log, ud, rc, pop, 1, 1)
  {
    hide Sends, Signals, Reposts, Waits, FirstSignalled;
    forall v: nat, t: Transport
      ensures Settled(log, ud, rc, pop, 1, 1, v, t)
    {
      assert Tallied(log, ud, rc, v, t);
    }
  }

  /** The events that settle peer `v` on one transport with `n` sends. */
  function Closing(v: nat, t: Transport, n: nat, pop: bool): seq<Event> {
    if n == 0 then [] else [Repost(v, t, n)] + if pop then [Wait(v, t)] else []
  }

  lemma ClosingTally(log: seq<Event>, v: nat, t: Transport, n: nat, pop: bool, v': nat, t': Transport)
    ensures var log' := log + Closing(v, t, n, pop); var here := v' == v && t' == t;
      && Sends(log', v', t') == Sends(log, v', t') && Signals(log', v', t') == Signals(log, v', t')
      && Reposts(log', v', t') == Reposts(log, v', t') + (if here then n else 0)
      && Waits(log', v', t') == Waits(log, v', t') + (if here && pop && n > 0 then 1 else 0)
  {
    hide Sends, Signals, Reposts, Waits;
    Tally(log, Repost(v, t, n), v', t');
    Tally(log + [Repost(v, t, n)], Wait(v, t), v', t');
    assert log + [] == log;
    assert log + [Repost(v, t, n)] + [Wait(v, t)] == log + ([Repost(v, t, n)] + [Wait(v, t)]);
    assert [Repost(v, t, n)] + [] == [Repost(v, t, n)];
  }

  lemma ClosingKeepsFirst(log: seq<Event>, v: nat, t: Transport, n: nat, pop: bool)
    requires FirstSignalled(log)
    ensures FirstSignalled(log + Closing(v, t, n, pop))
  {
    hide Sends;
    var log' := log + Closing(v, t, n, pop);
    forall i | 0 <= i < |log'| && log'[i].Post?
      ensures log'[i].signaled == (Sends(log'[..i], log'[i].vid, log'[i].t) == 0)
    {
      assert log'[..i] == log[..i];
    }
  }

  lemma SettleMore(log: seq<Event>, ud: seq<nat>, rc: seq<nat>, pop: bool, v: nat, t: Transport)
    requires 1 <= v < HOST_LEN && t != Dc && Settling(log, ud, rc, pop, if t == Ud then v else v + 1, v)
    ensures var n := if t == Ud then ud[v] else rc[v];
      Settling(log + Closing(v, t, n, pop), ud, rc, pop, v + 1, if t == Ud then v else v + 1)
  {
    hide Sends, Signals, Reposts, Waits, FirstSignalled, Closing;
    var n := if t == Ud then ud[v] else rc[v];
    var du, dr, dr' := if t == Ud then v else v + 1, v, if t == Ud then v else v + 1;
    var log', du' := log + Closing(v, t, n, pop), v + 1;
    ClosingKeepsFirst(log, v, t, n, pop);
    forall v': nat, t': Transport
      ensures Settled(log', ud, rc, pop, du', dr', v', t')
    {
      assert Settled(log, ud, rc, pop, du, dr, v', t');
      ClosingTally(log, v, t, n, pop, v', t');
    }
  }

  /** Reposts the receives of one peer and transport and waits for its completion. */
  method Close(v: nat, t: Transport, n: nat, pop: bool, recvFails: bool, waitFails: bool)
      returns (res: Status, events: seq<Event>)
    requires n > 0
    ensures res == Err <==> recvFails || (pop && waitFails)
    ensures res != Err ==> res == Ok && events == Closing(v, t, n, pop)
  {
    res, events := Ok, [];
    if recvFails { return Err, []; }
    events := [Repost(v, t, n)];
    if pop {
      if waitFails { return Err, events; }
      events := events + [Wait(v, t)];
    }
  }

  /** No request names peer number 0, that is, one divisible by 12. */
  ghost predicate NoZero(reqs: seq<Req>) {
    forall i :: 0 <= i < |reqs| ==> reqs[i].vid % HOST_LEN != 0
  }

  /** A push on a bound queue. If it is answered ok, every (peer, transport) with sends has exactly one signalled send,
      its first; unless the peer number is 0, its receives are reposted, one for each send, and with `popAtOnce` exactly
      one completion is waited for. Everyone is settled exactly when no request names a peer number divisible by 12. */
  method BindServerPush(reqs: seq<Req>, popAtOnce: bool, bound: nat -> bool, refuses: nat -> bool,
                        recvFails: (nat, Transport) -> bool, waitFails: (nat, Transport) -> bool)
      returns (res: Status, log: seq<Event>)
    ensures res == Ok ==> FirstSignalled(log) && |reqs| <= |log|
    ensures res == Ok ==> Posts(log, reqs, bound)
    ensures res == Ok ==> forall v: nat, t: Transport :: Balanced(log, popAtOnce, v, t)
    ensures res == Ok ==> (AllReposted(log) <==> NoZero(reqs))
    ensures res == Ok && popAtOnce ==> (AllAwaited(log) <==> NoZero(reqs))
    ensures (res == Ok || res == Err) && (res == Ok <==> Smooth(reqs, popAtOnce, bound, refuses, recvFails, waitFails))
  {
    hide Sending, Settling, FirstSignalled, Posts, AllReposted, AllAwaited, Closing, Balanced, AllFine, IsPost;
    var ud, rc;
    res, log, ud, rc := PostAll(reqs, bound, refuses);
    if res != Ok { return; }
    ghost var posts := log;
    FineNone(ud[..], rc[..], popAtOnce, recvFails, waitFails);
    PostsAtFirst(log, reqs, bound);
    SettleStart(log, ud[..], rc[..], popAtOnce);
    var vid := 1;
    while vid < HOST_LEN
      invariant 1 <= vid <= HOST_LEN && Settling(log, ud[..], rc[..], popAtOnce, vid, vid) && res == Ok
      invariant Posts(log, reqs, bound) && |reqs| <= |log|
      invariant AllFine(ud[..], rc[..], popAtOnce, recvFails, waitFails, vid) && Sending(posts, ud[..], rc[..])
    {
      NotFine(posts, reqs, popAtOnce, bound, refuses, recvFails, waitFails, ud[..], rc[..], vid);
      FineNext(ud[..], rc[..], popAtOnce, recvFails, waitFails, vid);
      SettleMore(log, ud[..], rc[..], popAtOnce, vid, Ud);
      NothingToClose(log, vid, popAtOnce);
      var events;
      if ud[vid] > 0 {
        res, events := Close(vid, Ud, ud[vid], popAtOnce, recvFails(vid, Ud), waitFails(vid, Ud));
        if res == Ok { PostsStill(log, reqs, bound, vid, Ud, ud[vid], popAtOnce); }
        log := log + events;
        if res != Ok { return; }
      }
      SettleMore(log, ud[..], rc[..], popAtOnce, vid, Rc);
      NothingToClose(log, vid, popAtOnce);
      if rc[vid] > 0 {
        res, events := Close(vid, Rc, rc[vid], popAtOnce, recvFails(vid, Rc), waitFails(vid, Rc));
        if res == Ok { PostsStill(log, reqs, bound, vid, Rc, rc[vid], popAtOnce); }
        log := log + events;
        if res != Ok { return; }
      }
      vid := vid + 1;
    }
    AllSettled(log, ud[..], rc[..], popAtOnce);
    PeerZero(log, reqs, bound, popAtOnce);
    EveryoneFine(posts, reqs, popAtOnce, bound, refuses, recvFails, waitFails, ud[..], rc[..]);
  }

  /** Nothing fails that peer `v` needs on one transport. */
  ghost predicate Fine(pop: bool, recvFails: (nat, Transport) -> bool, waitFails: (nat, Transport) -> bool, v: nat,
                       t: Transport) {
    !recvFails(v, t) && !(pop && waitFails(v, t))
  }

  /** Nothing fails that one request needs: its post, and unless it names peer number 0, its peer's receives and the
      completion waited for. */
  ghost predicate FineFor(r: Req, rc: bool, refused: bool, pop: bool, recvFails: (nat, Transport) -> bool,
                          waitFails: (nat, Transport) -> bool) {
    !refused && (r.vid % HOST_LEN == 0 || Fine(pop, recvFails, waitFails, r.vid % HOST_LEN, if rc then Rc else Ud))
  }

  ghost predicate Smooth(reqs: seq<Req>, pop: bool, bound: nat -> bool, refuses: nat -> bool,
                         recvFails: (nat, Transport) -> bool, waitFails: (nat, Transport) -> bool) {
    forall i: nat :: i < |reqs| ==> FineFor(reqs[i], bound(i), refuses(i), pop, recvFails, waitFails)
  }

  /** Everyone below `vid` who was sent something is fine. */
  ghost predicate AllFine(ud: seq<nat>, rc: seq<nat>, pop: bool, recvFails: (nat, Transport) -> bool,
                          waitFails: (nat, Transport) -> bool, vid: nat) {
    && |ud| == |rc| == HOST_LEN
    && forall v :: 1 <= v < vid && v < HOST_LEN ==>
      (ud[v] > 0 ==> Fine(pop, recvFails, waitFails, v, Ud)) && (rc[v] > 0 ==> Fine(pop, recvFails, waitFails, v, Rc))
  }

  lemma FineNone(ud: seq<nat>, rc: seq<nat>, pop: bool, recvFails: (nat, Transport) -> bool,
                 waitFails: (nat, Transport) -> bool)
    requires |ud| == |rc| == HOST_LEN
    ensures AllFine(ud, rc, pop, recvFails, waitFails, 1)
  {
  }

  lemma FineNext(ud: seq<nat>, rc: seq<nat>, pop: bool, recvFails: (nat, Transport) -> bool,
                 waitFails: (nat, Transport) -> bool, vid: nat)
    requires AllFine(ud, rc, pop, recvFails, waitFails, vid) && 1 <= vid < HOST_LEN
    ensures AllFine(ud, rc, pop, recvFails, waitFails, vid + 1) <==>
      && (ud[vid] > 0 ==> Fine(pop, recvFails, waitFails, vid, Ud))
      && (rc[vid] > 0 ==> Fine(pop, recvFails, waitFails, vid, Rc))
  {
  }

  lemma {:induction false} FindSend(log: seq<Event>, v: nat, t: Transport) returns (i: nat)
    requires Sends(log, v, t) > 0
    ensures i < |log| && log[i].Post? && log[i].vid == v && log[i].t == t
  {
    var n := |log| - 1;
    if Send(log[n], v, t) > 0 { i := n; } else { i := FindSend(log[..n], v, t); }
  }

  /** Someone who was sent something and is not fine spoils the push. */
  lemma NotFine(posts: seq<Event>, reqs: seq<Req>, pop: bool, bound: nat -> bool, refuses: nat -> bool,
                recvFails: (nat, Transport) -> bool, waitFails: (nat, Transport) -> bool, ud: seq<nat>, rc: seq<nat>,
                vid: nat)
    requires Sending(posts, ud, rc) && |posts| == |reqs| && 1 <= vid < HOST_LEN
    requires forall i: nat :: i < |reqs| ==> IsPost(posts[i], reqs[i], bound(i))
    ensures ud[vid] > 0 && !Fine(pop, recvFails, waitFails, vid, Ud) ==>
      !Smooth(reqs, pop, bound, refuses, recvFails, waitFails)
    ensures rc[vid] > 0 && !Fine(pop, recvFails, waitFails, vid, Rc) ==>
      !Smooth(reqs, pop, bound, refuses, recvFails, waitFails)
  {
    hide Sends, Signals, Reposts, Waits, Fine, FirstSignalled;
    assert Tallied(posts, ud, rc, vid, Ud) && Tallied(posts, ud, rc, vid, Rc);
    if ud[vid] > 0 && !Fine(pop, recvFails, waitFails, vid, Ud) {
      var i := FindSend(posts, vid, Ud);
      assert !FineFor(reqs[i], bound(i), refuses(i), pop, recvFails, waitFails);
    }
    if rc[vid] > 0 && !Fine(pop, recvFails, waitFails, vid, Rc) {
      var i := FindSend(posts, vid, Rc);
      assert !FineFor(reqs[i], bound(i), refuses(i), pop, recvFails, waitFails);
    }
  }

  lemma EveryoneFine(posts: seq<Event>, reqs: seq<Req>, pop: bool, bound: nat -> bool, refuses: nat -> bool,
                     recvFails: (nat, Transport) -> bool, waitFails: (nat, Transport) -> bool, ud: seq<nat>,
                     rc: seq<nat>)
    requires Sending(posts, ud, rc) && |posts| == |reqs| && AllFine(ud, rc, pop, recvFails, waitFails, HOST_LEN)
    requires forall i: nat :: i < |reqs| ==> IsPost(posts[i], reqs[i], bound(i)) && !refuses(i)
    ensures Smooth(reqs, pop, bound, refuses, recvFails, waitFails)
  {
    hide Sends, Signals, Reposts, Waits, Fine, FirstSignalled;
    forall i: nat | i < |reqs|
      ensures FineFor(reqs[i], bound(i), refuses(i), pop, recvFails, waitFails)
    {
      SentTo(posts, i);
      assert Tallied(posts, ud, rc, posts[i].vid, posts[i].t);
    }
  }

  lemma NothingToClose(log: seq<Event>, v: nat, pop: bool)
    ensures forall t: Transport :: log + Closing(v, t, 0, pop) == log
  {
  }

  /** Sends, signals, receives and waits of (v, t) after an ok answer. */
  ghost predicate Balanced(log: seq<Event>, pop: bool, v: nat, t: Transport) {
    var n := Sends(log, v, t);
    && Signals(log, v, t) == (if n > 0 then 1 else 0)
    && Reposts(log, v, t) == (if v == 0 then 0 else n)
    && Waits(log, v, t) == (if v != 0 && pop && n > 0 then 1 else 0)
  }

  lemma AllSettled(log: seq<Event>, ud: seq<nat>, rc: seq<nat>, pop: bool)
    requires Settling(log, ud, rc, pop, HOST_LEN, HOST_LEN)
    ensures FirstSignalled(log) && forall v: nat, t: Transport :: Balanced(log, pop, v, t)
  {
    hide Sends, Signals, Reposts, Waits, FirstSignalled;
    forall v: nat, t: Transport
      ensures Balanced(log, pop, v, t)
    {
      assert Settled(log, ud, rc, pop, HOST_LEN, HOST_LEN, v, t);
    }
  }

  /** The posts in the log are those of the requests, in order, each over the transport its peer is served by. */
  ghost predicate Posts(log: seq<Event>, reqs: seq<Req>, bound: nat -> bool) {
    && |reqs| <= |log|
    && (forall i: nat :: i < |reqs| ==> IsPost(log[i], reqs[i], bound(i)))
    && forall i :: |reqs| <= i < |log| ==> !log[i].Post?
  }

  lemma PostsAtFirst(log: seq<Event>, reqs: seq<Req>, bound: nat -> bool)
    requires |log| == |reqs|
    requires forall i: nat :: i < |reqs| ==> IsPost(log[i], reqs[i], bound(i))
    ensures Posts(log, reqs, bound)
  {
  }

  lemma PostsStill(log: seq<Event>, reqs: seq<Req>, bound: nat -> bool, v: nat, t: Transport, n: nat, pop: bool)
    requires Posts(log, reqs, bound)
    ensures Posts(log + Closing(v, t, n, pop), reqs, bound)
  {
  }

  /** As many receives are posted again as there were sends, for everyone. */
  ghost predicate AllReposted(log: seq<Event>) {
    forall v: nat, t: Transport :: Reposts(log, v, t) == Sends(log, v, t)
  }

  /** Every signalled send is waited for. */
  ghost predicate AllAwaited(log: seq<Event>) {
    forall v: nat, t: Transport :: Waits(log, v, t) == Signals(log, v, t)
  }

  lemma {:induction false} NotSentTo(log: seq<Event>, v: nat, t: Transport)
    requires forall i :: 0 <= i < |log| && log[i].Post? ==> log[i].vid != v
    ensures Sends(log, v, t) == 0
  {
    if log != [] { NotSentTo(log[..|log| - 1], v, t); }
  }

  lemma {:induction false} SentTo(log: seq<Event>, i: nat)
    requires i < |log| && log[i].Post?
    ensures Sends(log, log[i].vid, log[i].t) > 0
  {
    hide Sends;
    var n := |log| - 1;
    assert log[..n] + [log[n]] == log;
    Tally(log[..n], log[n], log[i].vid, log[i].t);
    if i < n { SentTo(log[..n], i); }
  }

  /** Peer number 0 is never settled: everyone is exactly when no request names it. */
  lemma PeerZero(log: seq<Event>, reqs: seq<Req>, bound: nat -> bool, pop: bool)
    requires Posts(log, reqs, bound) && forall v: nat, t: Transport :: Balanced(log, pop, v, t)
    ensures AllReposted(log) <==> NoZero(reqs)
    ensures pop ==> (AllAwaited(log) <==> NoZero(reqs))
  {
    hide Sends, Signals, Reposts, Waits;
    forall v: nat, t: Transport
      ensures Reposts(log, v, t) == if v == 0 then 0 else Sends(log, v, t)
      ensures Signals(log, v, t) == if Sends(log, v, t) > 0 then 1 else 0
      ensures Waits(log, v, t) == if pop && v != 0 && Sends(log, v, t) > 0 then 1 else 0
    {
      assert Balanced(log, pop, v, t);
    }
    if i :| 0 <= i < |reqs| && reqs[i].vid % HOST_LEN == 0 {
      assert log[i].vid == 0;
      SentTo(log, i);
      assert Reposts(log, 0, log[i].t) != Sends(log, 0, log[i].t);
      assert pop ==> Waits(log, 0, log[i].t) != Signals(log, 0, log[i].t);
    } else {
      forall t: Transport
        ensures Sends(log, 0, t) == 0
      {
        NotSentTo(log, 0, t);
      }
    }
  }

  /** One request for peer number 12, nothing failing: the answer is ok, its signalled send is never waited for and its
      receive never posted again. */
  method PeerTwelve(r: Req) returns (res: Status, log: seq<Event>)
    requires r.vid == 12
    ensures res == Ok && Sends(log, 0, Ud) > 0 && Signals(log, 0, Ud) == 1 && Reposts(log, 0, Ud) == 0
    ensures Waits(log, 0, Ud) == 0
  {
    hide Sends, Signals, Reposts, Waits;
    res, log := BindServerPush([r], true, _ => false, _ => false, (_, _) => false, (_, _) => false);
    assert log[0].t == Ud && log[0].vid == 0;
    assert Balanced(log, true, 0, Ud);
    SentTo(log, 0);
  }

  // ---------------------------------------------------------------- a whole push on a bound queue

  lemma {:induction false} TallyConcat(log: seq<Event>, more: seq<Event>, v: nat, t: Transport)
    ensures Sends(log + more, v, t) == Sends(log, v, t) + Sends(more, v, t)
    ensures Signals(log + more, v, t) == Signals(log, v, t) + Signals(more, v, t)
    ensures Reposts(log + more, v, t) == Reposts(log, v, t) + Reposts(more, v, t)
    ensures Waits(log + more, v, t) == Waits(log, v, t) + Waits(more, v, t)
  {
    if more == [] {
      assert log + more == log;
    } else {
      var n := |more| - 1;
      TallyConcat(log, more[..n], v, t);
      assert more == more[..n] + [more[n]] && log + more == log + more[..n] + [more[n]];
      hide Sends, Signals, Reposts, Waits;
      Tally(log + more[..n], more[n], v, t);
      Tally(more[..n], more[n], v, t);
    }
  }

  /** Sends, signals, receives and waits of (v, t) over several batches: as many receives as sends and as many waits as
      signals, except for peer number 0. */
  ghost predicate InBalance(log: seq<Event>, pop: bool, v: nat, t: Transport) {
    && (Signals(log, v, t) > 0 <==> Sends(log, v, t) > 0)
    && Reposts(log, v, t) == (if v == 0 then 0 else Sends(log, v, t))
    && Waits(log, v, t) == (if v != 0 && pop then Signals(log, v, t) else 0)
  }

  ghost predicate NoneToZero(log: seq<Event>) {
    forall t: Transport :: Sends(log, 0, t) == 0
  }

  /** The posts of a log. */
  function PostsOnly(log: seq<Event>): (r: seq<Event>)
    ensures |r| <= |log|
  {
    if log == [] then [] else
      PostsOnly(log[..|log| - 1]) + if log[|log| - 1].Post? then [log[|log| - 1]] else []
  }

  lemma {:induction false} PostsConcat(log: seq<Event>, more: seq<Event>)
    ensures PostsOnly(log + more) == PostsOnly(log) + PostsOnly(more)
  {
    if more == [] {
      assert log + more == log;
    } else {
      var n := |more| - 1;
      PostsConcat(log, more[..n]);
      assert (log + more)[..|log + more| - 1] == log + more[..n];
    }
  }

  lemma {:induction false} PostsFirst(log: seq<Event>, n: nat)
    requires n <= |log| && forall i :: 0 <= i < |log| ==> (log[i].Post? <==> i < n)
    ensures PostsOnly(log) == log[..n]
  {
    if log != [] {
      var m := |log| - 1;
      PostsFirst(log[..m], if n <= m then n else m);
      assert n <= m ==> log[..m][..n] == log[..n];
      assert n == |log| ==> log[..m][..m] + [log[m]] == log[..n];
    }
  }

  /** The events `posts` are those of the requests, each over the transport its peer is served by. */
  ghost predicate PostedAs(posts: seq<Event>, reqs: seq<Req>, bound: nat -> bool) {
    |posts| == |reqs| && forall i: nat :: i < |reqs| ==> IsPost(posts[i], reqs[i], bound(i))
  }

  lemma NoZeroConcat(a: seq<Req>, b: seq<Req>)
    ensures NoZero(a + b) <==> NoZero(a) && NoZero(b)
  {
    if NoZero(a + b) {
      assert forall i :: 0 <= i < |a| ==> (a + b)[i] == a[i];
      assert forall i :: 0 <= i < |b| ==> (a + b)[|a| + i] == b[i];
    }
  }

  /** The batches so far. */
  ghost predicate Pushing(log: seq<Event>, pop: bool, reqs: seq<Req>, bound: nat -> bool) {
    && (forall v: nat, t: Transport :: InBalance(log, pop, v, t))
    && (NoneToZero(log) <==> NoZero(reqs)) && PostedAs(PostsOnly(log), reqs, bound)
  }

  lemma PushingNone(pop: bool, bound: nat -> bool)
    ensures Pushing([], pop, [], bound)
  {
  }

  lemma PostedMore(posts: seq<Event>, reqs: seq<Req>, bound: nat -> bool, offset: nat, len: nat, more: seq<Event>)
    requires offset + len <= |reqs| && PostedAs(posts, reqs[..offset], bound)
    requires Posts(more, reqs[offset..offset + len], Shift(bound, offset))
    ensures PostedAs(posts + PostsOnly(more), reqs[..offset + len], bound)
  {
    var b := reqs[offset..offset + len];
    PostsFirst(more, len);
    forall i: nat | i < offset + len
      ensures IsPost((posts + more[..len])[i], reqs[i], bound(i))
    {
      if i < offset {
        assert IsPost(posts[i], reqs[..offset][i], bound(i));
      } else {
        assert IsPost(more[i - offset], b[i - offset], bound(offset + (i - offset)));
      }
    }
  }

  lemma PushingMore(log: seq<Event>, pop: bool, reqs: seq<Req>, bound: nat -> bool, offset: nat, len: nat,
                    more: seq<Event>)
    requires offset + len <= |reqs| && Pushing(log, pop, reqs[..offset], bound)
    requires forall v: nat, t: Transport :: Balanced(more, pop, v, t)
    requires AllReposted(more) <==> NoZero(reqs[offset..offset + len])
    requires Posts(more, reqs[offset..offset + len], Shift(bound, offset))
    ensures Pushing(log + more, pop, reqs[..offset + len], bound)
  {
    hide Sends, Signals, Reposts, Waits, AllReposted, NoZero, PostsOnly, PostedAs, Posts;
    forall v: nat, t: Transport
      ensures InBalance(log + more, pop, v, t)
      ensures Sends(log + more, v, t) == Sends(log, v, t) + Sends(more, v, t)
    {
      TallyConcat(log, more, v, t);
      assert InBalance(log, pop, v, t) && Balanced(more, pop, v, t);
    }
    RepostedMeans(more, pop);
    assert NoneToZero(log + more) <==> NoneToZero(log) && NoneToZero(more);
    assert reqs[..offset + len] == reqs[..offset] + reqs[offset..offset + len];
    NoZeroConcat(reqs[..offset], reqs[offset..offset + len]);
    PostsConcat(log, more);
    PostedMore(PostsOnly(log), reqs, bound, offset, len, more);
  }

  lemma RepostedMeans(log: seq<Event>, pop: bool)
    requires forall v: nat, t: Transport :: Balanced(log, pop, v, t)
    ensures AllReposted(log) <==> NoneToZero(log)
  {
    hide Sends, Signals, Reposts, Waits;
    forall v: nat, t: Transport
      ensures Reposts(log, v, t) == if v == 0 then 0 else Sends(log, v, t)
    {
      assert Balanced(log, pop, v, t);
    }
  }

  lemma PushingMeans(log: seq<Event>, pop: bool, reqs: seq<Req>, bound: nat -> bool)
    requires Pushing(log, pop, reqs, bound)
    ensures (forall v: nat, t: Transport :: InBalance(log, pop, v, t)) && PostedAs(PostsOnly(log), reqs, bound)
    ensures AllReposted(log) <==> NoZero(reqs)
    ensures pop ==> (AllAwaited(log) <==> NoZero(reqs))
  {
    hide Sends, Signals, Reposts, Waits;
    forall v: nat, t: Transport
      ensures Reposts(log, v, t) == if v == 0 then 0 else Sends(log, v, t)
      ensures Signals(log, v, t) > 0 <==> Sends(log, v, t) > 0
      ensures Waits(log, v, t) == if v != 0 && pop then Signals(log, v, t) else 0
    {
      assert InBalance(log, pop, v, t);
    }
    forall t: Transport
      ensures Signals(log, 0, t) == 0 <==> Sends(log, 0, t) == 0
    {
      assert InBalance(log, pop, 0, t);
    }
  }

  function Shift(f: nat -> bool, o: nat): nat -> bool { (i: nat) => f(o + i) }

  function InBatch(f: (nat, nat, Transport) -> bool, k: nat): (nat, Transport) -> bool {
    (v: nat, t: Transport) => f(k, v, t)
  }

  /** Nothing fails that the first `n` requests need, each in its batch. */
  ghost predicate AllSmooth(reqs: seq<Req>, pop: bool, bound: nat -> bool, refuses: nat -> bool,
                            recvFails: (nat, nat, Transport) -> bool, waitFails: (nat, nat, Transport) -> bool,
                            n: nat) {
    n <= |reqs| && forall i: nat :: i < n ==>
      FineFor(reqs[i], bound(i), refuses(i), pop, InBatch(recvFails, i / DEFAULT_BATCH_SZ),
              InBatch(waitFails, i / DEFAULT_BATCH_SZ))
  }

  lemma SmoothNone(reqs: seq<Req>, pop: bool, bound: nat -> bool, refuses: nat -> bool,
                   recvFails: (nat, nat, Transport) -> bool, waitFails: (nat, nat, Transport) -> bool)
    ensures AllSmooth(reqs, pop, bound, refuses, recvFails, waitFails, 0)
  {
  }

  /** One more batch. */
  lemma SmoothBatch(reqs: seq<Req>, pop: bool, bound: nat -> bool, refuses: nat -> bool,
                    recvFails: (nat, nat, Transport) -> bool, waitFails: (nat, nat, Transport) -> bool, k: nat, o: nat,
                    len: nat)
    requires AllSmooth(reqs, pop, bound, refuses, recvFails, waitFails, o) && o == DEFAULT_BATCH_SZ * k
    requires len <= DEFAULT_BATCH_SZ && o + len <= |reqs|
    ensures Smooth(reqs[o..o + len], pop, Shift(bound, o), Shift(refuses, o), InBatch(recvFails, k),
                   InBatch(waitFails, k))
      <==> AllSmooth(reqs, pop, bound, refuses, recvFails, waitFails, o + len)
    ensures !AllSmooth(reqs, pop, bound, refuses, recvFails, waitFails, o + len) ==>
      !AllSmooth(reqs, pop, bound, refuses, recvFails, waitFails, |reqs|)
  {
    hide FineFor, InBatch;
    var batch := reqs[o..o + len];
    forall i: nat | o <= i < o + len
      ensures i / DEFAULT_BATCH_SZ == k
      ensures batch[i - o] == reqs[i] && Shift(bound, o)(i - o) == bound(i) && Shift(refuses, o)(i - o) == refuses(i)
    {
    }
    if AllSmooth(reqs, pop, bound, refuses, recvFails, waitFails, o + len) {
      forall j: nat | j < len
        ensures FineFor(batch[j], Shift(bound, o)(j), Shift(refuses, o)(j), pop, InBatch(recvFails, k),
                        InBatch(waitFails, k))
      {
        assert batch[j] == reqs[o + j] && (o + j) / DEFAULT_BATCH_SZ == k;
      }
    }
    if Smooth(batch, pop, Shift(bound, o), Shift(refuses, o), InBatch(recvFails, k), InBatch(waitFails, k)) {
      forall i: nat | i < o + len
        ensures FineFor(reqs[i], bound(i), refuses(i), pop, InBatch(recvFails, i / DEFAULT_BATCH_SZ),
                        InBatch(waitFails, i / DEFAULT_BATCH_SZ))
      {
        if i >= o {
          assert FineFor(batch[i - o], Shift(bound, o)(i - o), Shift(refuses, o)(i - o), pop, InBatch(recvFails, k),
                         InBatch(waitFails, k));
        }
      }
    }
  }

  /** The push command on a bound queue, batch by batch; the arguments say of the environment what those of
      `BindServerPush` do, request `i` counted over all batches and failures by batch. Over all batches of a push that
      is answered ok the posts are the requests in order, and everyone has as many receives as sends, and as many waits
      as signalled sends, exactly when no request names a peer number divisible by 12. */
  method BindPush(reqs: seq<Req>, popAtOnce: bool, bound: nat -> bool, refuses: nat -> bool,
                  recvFails: (nat, nat, Transport) -> bool, waitFails: (nat, nat, Transport) -> bool)
      returns (ret: Status, log: seq<Event>, batches: nat)
    ensures ret == Ok ==> forall v: nat, t: Transport :: InBalance(log, popAtOnce, v, t)
    ensures ret == Ok ==> PostedAs(PostsOnly(log), reqs, bound)
    ensures ret == Ok ==> (AllReposted(log) <==> NoZero(reqs))
    ensures ret == Ok && popAtOnce ==> (AllAwaited(log) <==> NoZero(reqs))
    ensures ret == Ok ==> batches == (|reqs| + DEFAULT_BATCH_SZ - 1) / DEFAULT_BATCH_SZ
    ensures ret == Ok <==> AllSmooth(reqs, popAtOnce, bound, refuses, recvFails, waitFails, |reqs|)
  {
    hide AllSmooth, Smooth, Pushing, Balanced, InBalance, AllReposted, AllAwaited, FirstSignalled, Posts, PostsOnly;
    hide PostedAs;
    ret, log, batches := Ok, [], 0;
    var offset := 0;
    PushingNone(popAtOnce, bound);
    SmoothNone(reqs, popAtOnce, bound, refuses, recvFails, waitFails);
    assert reqs[..0] == [];
    while offset < |reqs|
      invariant Batched(|reqs|, batches, offset) && offset <= |reqs| && ret == Ok
      invariant Pushing(log, popAtOnce, reqs[..offset], bound)
      invariant AllSmooth(reqs, popAtOnce, bound, refuses, recvFails, waitFails, offset)
    {
      var len := if DEFAULT_BATCH_SZ < |reqs| - offset then DEFAULT_BATCH_SZ else |reqs| - offset;
      var o, k := offset, batches;
      var more;
      ret, more := BindServerPush(reqs[o..o + len], popAtOnce, Shift(bound, o), Shift(refuses, o),
                                  InBatch(recvFails, k), InBatch(waitFails, k));
      BatchMore(|reqs|, k, o, len);
      SmoothBatch(reqs, popAtOnce, bound, refuses, recvFails, waitFails, k, o, len);
      if ret != Ok { return; }
      PushingMore(log, popAtOnce, reqs, bound, o, len, more);
      log, offset, batches := log + more, o + len, k + 1;
    }
    assert reqs[..offset] == reqs;
    LastBatch(|reqs|, batches);
    PushingMeans(log, popAtOnce, reqs, bound);
  }
}
