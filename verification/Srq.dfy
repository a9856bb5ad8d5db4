/** The shared receive queue: receive WQEs on a free list threaded through the WQEs
    themselves. Software takes WQEs from the head, fills them and hands them to the
    device, which follows the same links; completed WQEs go back to the tail.
 */
module SharedReceiveQueues {
  import opened Common

  const INVALID_LKEY := 0x100

  /** A scatter entry. */
  datatype Seg = Seg(byteCount: nat, lkey: nat, addr: nat)

  /** A receive request. */
  datatype Request = Request(wrId: nat, sges: seq<Seg>)

  datatype Error = Ok | NoMemory | Invalid

  const SENTINEL := Seg(0, INVALID_LKEY, 0)

  /** The scatter list the device sees: the entries up to the first invalid key. */
  function Effective(s: seq<Seg>): (r: seq<Seg>)
    ensures r <= s
  {
    if s == [] || s[0].lkey == INVALID_LKEY then [] else [s[0]] + Effective(s[1..])
  }

  /** All of a list without invalid keys. */
  lemma {:induction false} EffectiveStops(s: seq<Seg>)
    ensures forall i :: 0 <= i < |Effective(s)| ==> s[i].lkey != INVALID_LKEY
    ensures |Effective(s)| < |s| ==> s[|Effective(s)|].lkey == INVALID_LKEY
  {
    if s != [] && s[0].lkey != INVALID_LKEY {
      EffectiveStops(s[1..]);
    }
  }

  /** Whatever follows an invalid key does not matter. */
  lemma {:induction false} EffectivePrefix(s: seq<Seg>, rest: seq<Seg>, rest': seq<Seg>)
    requires s != [] && s[|s| - 1].lkey == INVALID_LKEY
    ensures Effective(s + rest) == Effective(s + rest')
  {
    if s[0].lkey != INVALID_LKEY {
      assert (s + rest)[1..] == s[1..] + rest && (s + rest')[1..] == s[1..] + rest';
      EffectivePrefix(s[1..], rest, rest');
    }
  }

  lemma {:induction false} EffectiveTerminated(s: seq<Seg>, rest: seq<Seg>)
    ensures Effective(s + [SENTINEL] + rest) == Effective(s)
  {
    if s == [] {
      assert s + [SENTINEL] + rest == [SENTINEL] + rest;
    } else if s[0].lkey != INVALID_LKEY {
      assert (s + [SENTINEL] + rest)[1..] == s[1..] + [SENTINEL] + rest;
      EffectiveTerminated(s[1..], rest);
    }
  }

  /** Every WQE is in exactly one place: `all` lists the indices below `max` once each. */
  ghost predicate Partition(all: seq<nat>, max: nat)
  {
    forall x: nat :: multiset(all)[x] == if x < max then 1 else 0
  }

  lemma OnceEach(all: seq<nat>, max: nat, i: nat, j: nat)
    requires Partition(all, max) && i < j < |all|
    ensures all[i] != all[j] && all[i] < max && all[j] < max
  {
    assert all == all[..i] + [all[i]] + all[i + 1..j] + [all[j]] + all[j + 1..];
    assert multiset(all)[all[i]] >= 1 && multiset(all)[all[j]] >= 1;
  }

  /** `next` links the elements of `list` in order. */
  ghost predicate Linked(next: seq<nat>, list: seq<nat>)
  {
    && (forall i :: 0 <= i < |list| ==> list[i] < |next|)
    && (forall i :: 0 <= i < |list| - 1 ==> next[list[i]] == list[i + 1])
  }

  /** The contents of a list of WQEs. */
  ghost function Contents(wrid: seq<nat>, scat: seq<seq<Seg>>, list: seq<nat>): (r: seq<Request>)
    requires Below(list, |wrid|) && Below(list, |scat|)
    ensures |r| == |list|
  {
    seq(|list|, i requires 0 <= i < |list| => Request(wrid[list[i]], Effective(scat[list[i]])))
  }

  ghost predicate Below(list: seq<nat>, max: nat)
  {
    forall i :: 0 <= i < |list| ==> list[i] < max
  }

  /** The memory of a queue and what it means: `queue` are the WQEs handed to the device and
      not yet consumed, `chain` the free list from head to tail, `held` the WQEs the device
      has consumed and software has not yet taken back; `posted` is the history of requests. */
  datatype State = State(next: seq<nat>, wrid: seq<nat>, scat: seq<seq<Seg>>, hw: nat, head: nat, tail: nat,
                         queue: seq<nat>, chain: seq<nat>, held: seq<nat>, posted: seq<Request>)
  {
    ghost predicate Inv(max: nat, maxGs: nat)
    {
      Sizes(max, maxGs) && Places(max) && Threaded(max) && Means(max)
    }

    ghost predicate Sizes(max: nat, maxGs: nat)
    {
      |next| == |wrid| == |scat| == max && forall x :: 0 <= x < max ==> |scat[x]| == maxGs
    }

    /** Every WQE is in exactly one of the three lists. */
    ghost predicate Places(max: nat)
    {
      Partition(queue + chain + held, max) && Below(queue + chain + held, max)
    }

    /** The links lead through the device's queue and on through the free list. */
    ghost predicate Threaded(max: nat)
    {
      && head < max && tail < max && hw < max
      && chain != [] && chain[0] == head && chain[|chain| - 1] == tail && (queue + chain)[0] == hw
      && Linked(next, queue + chain)
    }

    /** The device's queue holds the newest requests. */
    ghost predicate Means(max: nat)
    {
      && |wrid| == |scat| == max && Below(queue, max) && Below(held, max)
      && |queue| <= |posted| && Contents(wrid, scat, queue) == posted[|posted| - |queue|..]
    }

    ghost predicate Shape(max: nat)
    {
      && head < max && tail < max && hw < max && chain != []
      && Below(queue, max) && Below(held, max) && |queue| <= |posted|
    }

    /** All requests that have not been given back. */
    ghost function Outstanding(): multiset<Request>
      requires Below(queue, |wrid|) && Below(queue, |scat|) && Below(held, |wrid|) && Below(held, |scat|)
    {
      multiset(Contents(wrid, scat, queue)) + multiset(Contents(wrid, scat, held))
    }
  }

  lemma Permute<T>(s: seq<T>, t: seq<T>, k: nat)
    requires k < |t|
    ensures multiset(s + t) == multiset(s + [t[k]] + Without(t, k))
  {
    assert t == t[..k] + [t[k]] + t[k + 1..];
  }

  lemma MoveInPartition(all: seq<nat>, all': seq<nat>, max: nat)
    requires Partition(all, max) && Below(all, max) && multiset(all) == multiset(all')
    ensures Partition(all', max) && Below(all', max)
  {
    forall i | 0 <= i < |all'|
      ensures all'[i] < max
    {
      assert all'[i] in multiset(all') && all'[i] in all;
    }
  }

  /** A WQE's place in the three lists is its only one. */
  lemma Alone(st: State, max: nat, p: nat, i: nat)
    requires st.Places(max) && p < |st.queue + st.chain + st.held| && i < |st.queue + st.chain + st.held| && i != p
    ensures (st.queue + st.chain + st.held)[i] != (st.queue + st.chain + st.held)[p]
  {
    hide Partition;
    var all := st.queue + st.chain + st.held;
    if i < p { OnceEach(all, max, i, p); } else { OnceEach(all, max, p, i); }
  }

  /** The head of the free list is in neither of the other lists. */
  lemma HeadElsewhere(st: State, max: nat)
    requires st.Places(max) && st.chain != [] && st.chain[0] == st.head
    ensures st.head !in st.queue && st.head !in st.held
  {
    hide Partition, Below;
    var all, h := st.queue + st.chain + st.held, |st.queue|;
    assert all[h] == st.head;
    forall i | 0 <= i < |all| && i != h
      ensures all[i] != st.head
    {
      Alone(st, max, h, i);
    }
    assert forall i :: 0 <= i < |st.queue| ==> st.queue[i] == all[i];
    assert forall i :: 0 <= i < |st.held| ==> st.held[i] == all[|st.queue + st.chain| + i];
  }

  /** Writing a WQE that is not in a list leaves the list's contents alone. */
  lemma SameContents(wrid: seq<nat>, scat: seq<seq<Seg>>, list: seq<nat>, x: nat, id: nat, segs: seq<Seg>)
    requires Below(list, |wrid|) && Below(list, |scat|) && x < |wrid| && x < |scat| && x !in list
    ensures Contents(wrid[x := id], scat[x := segs], list) == Contents(wrid, scat, list)
  {
    hide Effective;
  }

  /** Filling the head of the free list and handing it to the device. */
  lemma PostKeepsInv(st: State, st': State, max: nat, maxGs: nat, req: Request, segs: seq<Seg>)
    requires st.Inv(max, maxGs) && |st.chain| > 1 && |segs| == maxGs && Effective(segs) == req.sges
    requires st' == st.(wrid := st.wrid[st.head := req.wrId], scat := st.scat[st.head := segs],
                        head := st.next[st.head], queue := st.queue + [st.head], chain := st.chain[1..],
                        posted := st.posted + [req])
    ensures st'.Inv(max, maxGs)
    ensures Contents(st'.wrid, st'.scat, st.held) == Contents(st.wrid, st.scat, st.held)
  {
    hide Effective, Partition, Contents, Linked;
    assert st'.queue + st'.chain == st.queue + st.chain;
    HeadElsewhere(st, max);
    SameContents(st.wrid, st.scat, st.held, st.head, req.wrId, segs);
    PostThreaded(st, max);
    PostMeans(st, st', max, req, segs);
  }

  lemma PostThreaded(st: State, max: nat)
    requires st.Threaded(max) && st.Places(max) && |st.chain| > 1 && |st.next| == max
    ensures st.next[st.head] == st.chain[1] && st.chain[1] < max
  {
    hide Partition;
    var h := |st.queue|;
    assert (st.queue + st.chain)[h] == st.head && (st.queue + st.chain)[h + 1] == st.chain[1];
    assert (st.queue + st.chain + st.held)[h + 1] == st.chain[1];
  }

  lemma PostMeans(st: State, st': State, max: nat, req: Request, segs: seq<Seg>)
    requires st.Means(max) && st.head < max && st.head !in st.queue && Effective(segs) == req.sges
    requires st'.wrid == st.wrid[st.head := req.wrId] && st'.scat == st.scat[st.head := segs]
    requires st'.queue == st.queue + [st.head] && st'.held == st.held && st'.posted == st.posted + [req]
    ensures st'.Means(max)
  {
    hide Effective;
    SameContents(st.wrid, st.scat, st.queue, st.head, req.wrId, segs);
    ContentsMore(st'.wrid, st'.scat, st.queue, st.head);
  }

  lemma ContentsMore(wrid: seq<nat>, scat: seq<seq<Seg>>, list: seq<nat>, x: nat)
    requires Below(list, |wrid|) && Below(list, |scat|) && x < |wrid| && x < |scat|
    ensures Contents(wrid, scat, list + [x]) == Contents(wrid, scat, list) + [Request(wrid[x], Effective(scat[x]))]
  {
    hide Effective;
  }

  lemma ContentsWithout(wrid: seq<nat>, scat: seq<seq<Seg>>, list: seq<nat>, k: nat)
    requires Below(list, |wrid|) && Below(list, |scat|) && k < |list|
    ensures Below(Without(list, k), |wrid|) && Below(Without(list, k), |scat|)
    ensures Contents(wrid, scat, Without(list, k)) == Without(Contents(wrid, scat, list), k)
  {
    hide Effective;
  }

  /** Giving the `k`-th held WQE back to the tail of the free list. */
  lemma FreeKeepsInv(st: State, st': State, max: nat, maxGs: nat, k: nat)
    requires st.Inv(max, maxGs) && k < |st.held|
    requires st' == st.(next := st.next[st.tail := st.held[k]], tail := st.held[k],
                        chain := st.chain + [st.held[k]], held := Without(st.held, k))
    ensures st'.Inv(max, maxGs)
  {
    hide Partition, Contents, Effective, Linked;
    FreePlaces(st, max, k);
    assert st.queue + (st.chain + [st.held[k]]) == st.queue + st.chain + [st.held[k]];
    FreeThreaded(st, st', max);
    assert Below(st'.held, max);
  }

  lemma FreePlaces(st: State, max: nat, k: nat)
    requires st.Places(max) && k < |st.held|
    ensures st.(chain := st.chain + [st.held[k]], held := Without(st.held, k)).Places(max) && st.held[k] < max
  {
    hide Partition;
    var all, all' := st.queue + st.chain + st.held, st.queue + (st.chain + [st.held[k]]) + Without(st.held, k);
    Permute(st.queue + st.chain, st.held, k);
    assert all' == st.queue + st.chain + [st.held[k]] + Without(st.held, k);
    assert all[|st.queue + st.chain| + k] == st.held[k];
    MoveInPartition(all, all', max);
  }

  lemma FreeThreaded(st: State, st': State, max: nat)
    requires st.Threaded(max) && st.Places(max) && |st.next| == max && st'.tail < max
    requires st'
      == st.(next := st.next[st.tail := st'.tail], tail := st'.tail, chain := st.chain + [st'.tail], held := st'.held)
    ensures st'.Threaded(max)
  {
    hide Partition;
    var all, list := st.queue + st.chain + st.held, st.queue + st.chain;
    assert st'.queue + st'.chain == list + [st'.tail];
    forall i | 0 <= i < |list| - 1
      ensures list[i] != st.tail
    {
      assert list[i] == all[i] && st.tail == all[|list| - 1];
      Alone(st, max, |list| - 1, i);
    }
  }

  /** The device takes the next WQE and follows its link. */
  lemma ConsumeKeepsInv(st: State, st': State, max: nat, maxGs: nat)
    requires st.Inv(max, maxGs) && st.queue != []
    requires st' == st.(hw := st.next[st.hw], queue := st.queue[1..], held := st.held + [st.hw])
    ensures st'.Inv(max, maxGs)
    ensures Request(st.wrid[st.hw], Effective(st.scat[st.hw])) == st.posted[|st.posted| - |st.queue|]
  {
    hide Partition, Linked, Effective, Contents;
    assert (st.queue + st.chain)[0] == st.queue[0];
    ConsumePlaces(st, st', max);
    ConsumeThreaded(st, st', max);
    ConsumeMeans(st, st', max);
  }

  lemma ConsumePlaces(st: State, st': State, max: nat)
    requires st.Places(max) && st.queue != [] && st.hw == st.queue[0]
    requires st'.queue == st.queue[1..] && st'.chain == st.chain && st'.held == st.held + [st.hw]
    ensures st'.Places(max) && st.hw < max
  {
    hide Partition;
    var rest := st.queue[1..] + st.chain + st.held;
    assert st.queue + st.chain + st.held == [st.hw] + rest;
    assert st'.queue + st'.chain + st'.held == rest + [st.hw];
    assert ([st.hw] + rest)[0] == st.hw;
    MoveInPartition([st.hw] + rest, rest + [st.hw], max);
  }

  lemma ConsumeThreaded(st: State, st': State, max: nat)
    requires st.Threaded(max) && |st.next| == max && st.queue != []
    requires st'.next == st.next && st'.hw == st.next[st.hw] && st'.queue == st.queue[1..] && st'.chain == st.chain
    requires st'.head == st.head && st'.tail == st.tail
    ensures st'.Threaded(max)
  {
    var list := st.queue + st.chain;
    assert st'.queue + st'.chain == list[1..];
    assert st.next[list[0]] == list[1];
    assert forall i :: 0 <= i < |list[1..]| ==> list[1..][i] == list[i + 1];
  }

  lemma ConsumeMeans(st: State, st': State, max: nat)
    requires st.Means(max) && st.queue != [] && st.hw == st.queue[0] && st.hw < max
    requires st'.wrid == st.wrid && st'.scat == st.scat && st'.posted == st.posted
    requires st'.queue == st.queue[1..] && st'.held == st.held + [st.hw]
    ensures st'.Means(max)
    ensures Request(st.wrid[st.hw], Effective(st.scat[st.hw])) == st.posted[|st.posted| - |st.queue|]
  {
    hide Effective;
    assert Contents(st.wrid, st.scat, st.queue)[1..] == Contents(st'.wrid, st'.scat, st'.queue);
    assert Contents(st.wrid, st.scat, st.queue)[0] == st.posted[|st.posted| - |st.queue|..][0];
  }

  /** Requeueing is giving a WQE back and posting its request again. */
  lemma RequeueKeepsInv(st: State, st': State, max: nat, maxGs: nat, k: nat, segs: seq<Seg>)
    requires st.Inv(max, maxGs) && k < |st.held| && |segs| == maxGs
    requires var ind := st.held[k]; Effective(segs) == Effective(st.scat[ind])
    requires var ind := st.held[k]; var next := st.next[st.tail := ind];
      st' == st.(next := next, wrid := st.wrid[st.head := st.wrid[ind]], scat := st.scat[st.head := segs],
                 head := next[st.head], tail := ind, queue := st.queue + [st.head],
                 chain := (st.chain + [ind])[1..], held := Without(st.held, k),
                 posted := st.posted + [Request(st.wrid[ind], Effective(st.scat[ind]))])
    ensures st'.Inv(max, maxGs) && st'.Outstanding() == st.Outstanding()
    ensures Contents(st'.wrid, st'.scat, st'.held) == Without(Contents(st.wrid, st.scat, st.held), k)
  {
    var ind := st.held[k];
    var req := Request(st.wrid[ind], Effective(st.scat[ind]));
    var next := st.next[st.tail := ind];
    var mid := st.(next := next, tail := ind, chain := st.chain + [ind], held := Without(st.held, k));
    ContentsWithout(st.wrid, st.scat, st.held, k);
    hide Partition, Effective, Contents, Linked;
    FreeKeepsInv(st, mid, max, maxGs, k);
    PostKeepsInv(mid, st', max, maxGs, req, segs);
    var c, q := Contents(st.wrid, st.scat, st.held), Contents(st.wrid, st.scat, st.queue);
    assert Contents(st'.wrid, st'.scat, st'.queue) == q + [req] by {
      assert st'.posted[|st'.posted| - |st'.queue|..] == st.posted[|st.posted| - |st.queue|..] + [req];
    }
    assert c[k] == req by { ContentsAt(st.wrid, st.scat, st.held, k); }
    Permute(q, c, k);
  }

  lemma ContentsAt(wrid: seq<nat>, scat: seq<seq<Seg>>, list: seq<nat>, k: nat)
    requires Below(list, |wrid|) && Below(list, |scat|) && k < |list|
    ensures Contents(wrid, scat, list)[k] == Request(wrid[list[k]], Effective(scat[list[k]]))
  {
  }

  /** Writes a scatter list into a WQE, with an end mark if it is not full. */
  method WriteSegs(was: seq<Seg>, sges: seq<Seg>) returns (segs: seq<Seg>)
    requires |sges| <= |was|
    ensures |segs| == |was| && Effective(segs) == Effective(sges)
  {
    segs := was;
    var i := 0;
    while i < |sges|
      invariant 0 <= i <= |sges| && segs == sges[..i] + was[i..]
    {
      segs := segs[i := sges[i]];
      i := i + 1;
    }
    if i < |was| {
      segs := segs[i := SENTINEL];
      assert segs == sges + [SENTINEL] + was[i + 1..];
      EffectiveTerminated(sges, was[i + 1..]);
    } else {
      assert segs == sges;
    }
  }

  /** Copies a WQE's scatter list up to and including its end mark. */
  method CopySegs(was: seq<Seg>, src: seq<Seg>) returns (segs: seq<Seg>)
    requires |src| == |was|
    ensures |segs| == |src| && Effective(segs) == Effective(src)
  {
    segs := was;
    for i := 0 to |src|
      invariant segs == src[..i] + was[i..]
    {
      segs := segs[i := src[i]];
      if src[i].lkey == INVALID_LKEY {
        assert segs == src[..i + 1] + was[i + 1..] && src == src[..i + 1] + src[i + 1..];
        EffectivePrefix(src[..i + 1], was[i + 1..], src[i + 1..]);
        return;
      }
    }
    assert segs == src;
  }

  lemma InvShape(st: State, max: nat, maxGs: nat)
    requires st.Inv(max, maxGs)
    ensures st.Shape(max)
    ensures |st.scat| == max && forall x :: 0 <= x < max ==> |st.scat[x]| == maxGs
  {
  }

  /** The 16-bit doorbell counter after `n` posts. */
  predicate Counts(counter: nat, n: nat) {
    counter == n % 0x1_0000
  }

  lemma CountsMore(counter: nat, n: nat, k: nat)
    requires Counts(counter, n)
    ensures Counts((counter + k) % 0x1_0000, n + k)
  {
  }

  lemma InvBelow(st: State, max: nat, maxGs: nat)
    requires st.Inv(max, maxGs)
    ensures Below(st.held, |st.wrid|) && Below(st.held, |st.scat|) && |st.queue| <= |st.posted|
  {
  }

  /** All WQEs are free after initialisation. */
  lemma InitInv(st: State, max: nat, maxGs: nat)
    requires 0 < max == |st.next| == |st.wrid| == |st.scat|
    requires st.queue == st.held == [] && st.posted == [] && st.chain == Range(max)
    requires st.head == st.hw == 0 && st.tail == max - 1
    requires forall k :: 0 <= k < max ==> st.next[k] == if k + 1 < max then k + 1 else 0
    requires forall k :: 0 <= k < max ==> |st.scat[k]| == maxGs
    ensures st.Inv(max, maxGs)
  {
    hide Partition, Effective, Range, Contents, Linked;
    assert st.queue + st.chain + st.held == st.chain && st.queue + st.chain == st.chain;
    RangePartition(max);
    RangeLinked(st.next, max);
    NoContents(st.wrid, st.scat);
    assert st.posted[0..] == [];
  }

  lemma RangeLinked(next: seq<nat>, max: nat)
    requires 0 < max == |next| && forall k :: 0 <= k < max ==> next[k] == if k + 1 < max then k + 1 else 0
    ensures Below(Range(max), max) && Linked(next, Range(max))
    ensures |Range(max)| == max && Range(max)[0] == 0 && Range(max)[max - 1] == max - 1
  {
  }

  lemma NoContents(wrid: seq<nat>, scat: seq<seq<Seg>>)
    ensures Contents(wrid, scat, []) == []
  {
  }

  method LinkAll(size: nat) returns (links: array<nat>)
    requires 0 < size
    ensures fresh(links) && links.Length == size
    ensures forall k :: 0 <= k < size ==> links[k] == if k + 1 < size then k + 1 else 0
  {
    links := new nat[size](_ => 0);
    for i := 0 to size
      invariant forall k :: 0 <= k < i ==> links[k] == if k + 1 < size then k + 1 else 0
    {
      NextIndex(i, size);
      links[i] := (i + 1) % size;
    }
  }

  lemma NextIndex(i: nat, size: nat)
    requires i < size
    ensures (i + 1) % size == if i + 1 < size then i + 1 else 0
  {
  }

  method BlankSegs(size: nat, gs: nat) returns (lists: array<seq<Seg>>)
    ensures fresh(lists) && lists.Length == size
    ensures forall k :: 0 <= k < size ==> |lists[k]| == gs
  {
    var blank := seq(gs, _ => Seg(0, 0, 0));
    lists := new seq<Seg>[size](_ => blank);
  }

  /** How many requests of a list are taken when `free` WQEs are left: those before the first with too many
      scatter entries, and never the last WQE. */
  function Accepted(free: nat, maxGs: nat, wrs: seq<Request>): (n: nat)
    ensures n <= |wrs| && (n == 0 || n < free)
  {
    if wrs == [] || |wrs[0].sges| > maxGs || free <= 1 then 0 else 1 + Accepted(free - 1, maxGs, wrs[1..])
  }

  lemma AcceptedNext(free: nat, maxGs: nat, wrs: seq<Request>, n: nat)
    requires n < |wrs|
    ensures Accepted(free, maxGs, wrs[n..]) ==
            if |wrs[n].sges| > maxGs || free <= 1 then 0 else 1 + Accepted(free - 1, maxGs, wrs[n + 1..])
  {
  }

  /** The queue as its user sees it: every request posted, how many of them the device has received, the received ones
      not yet given back, and how many WQEs are free. */
  datatype View = View(posted: seq<Request>, taken: nat, held: seq<Request>, free: nat)

  class Srq {
    const max: nat
    const maxGs: nat
    const next: array<nat>
    const wrid: array<nat>
    const scat: array<seq<Seg>>
    var head: nat
    var tail: nat
    var counter: nat  // 16 bits, what the doorbell record tells the device
    var hw: nat       // the WQE the device will use next

    ghost var queue: seq<nat>
    ghost var chain: seq<nat>
    ghost var held: seq<nat>
    ghost var posted: seq<Request>

    ghost function St(): State
      reads this, next, wrid, scat
    {
      State(next[..], wrid[..], scat[..], hw, head, tail, queue, chain, held, posted)
    }

    /** What the queue stands for. */
    ghost function User(): View
      reads this, next, wrid, scat
      requires Valid()
    {
      InvBelow(St(), max, maxGs);
      View(posted, |posted| - |queue|, Contents(wrid[..], scat[..], held), |chain|)
    }

    ghost predicate Valid()
      reads this, next, wrid, scat
    {
      && next != wrid && next.Length == wrid.Length == scat.Length == max <= 0x1_0000
      && Counts(counter, |posted|)
      && St().Shape(max) && St().Inv(max, maxGs)
    }

    constructor (size: nat, gs: nat)
      requires 0 < size <= 0x1_0000
      ensures Valid() && fresh(next) && fresh(wrid) && fresh(scat)
      ensures max == size && maxGs == gs
      ensures queue == held == [] && posted == [] && |chain| == size
    {
      hide State.Inv, Partition, Effective, Range;
      max, maxGs := size, gs;
      var links := LinkAll(size);
      var lists := BlankSegs(size, gs);
      next, scat := links, lists;
      wrid := new nat[size](_ => 0);
      head, tail, counter, hw := 0, size - 1, 0, 0;
      queue, held, posted := [], [], [];
      chain := Range(size);
      new;
      InitInv(St(), size, gs);
      InvShape(St(), size, gs);
    }

    /** Posts a list of requests. Stops at the first one that has too many scatter entries
        or finds only one WQE left on the free list. */
    method PostRecv(wrs: seq<Request>) returns (n: nat, err: Error)
      requires Valid()
      modifies this`head, this`counter, this`queue, this`chain, this`posted, wrid, scat
      ensures Valid() && held == old(held)
      ensures n == Accepted(old(|chain|), maxGs, wrs) && posted == old(posted) + Seen(wrs[..n])
      ensures |chain| == |old(chain)| - n && |queue| == |old(queue)| + n
      ensures err == Ok <==> n == |wrs|
      ensures n < |wrs| ==> err == if |wrs[n].sges| > maxGs then Invalid else NoMemory
      ensures err == NoMemory ==> |chain| == 1
      ensures Contents(wrid[..], scat[..], held) == old(Contents(wrid[..], scat[..], held))
    {
      hide State.Inv, Contents, Effective, Accepted, Seen, Counts;
      n, err := 0, Ok;
      SeenNone(wrs, posted);
      while n < |wrs|
        invariant n <= |wrs| && err == Ok
        invariant Accepted(old(|chain|), maxGs, wrs) == n + Accepted(|chain|, maxGs, wrs[n..])
        invariant counter == old(counter) && St().Shape(max) && St().Inv(max, maxGs)
        invariant posted == old(posted) + Seen(wrs[..n]) && |chain| == |old(chain)| - n
        invariant |queue| == |old(queue)| + n
        invariant Contents(wrid[..], scat[..], held) == old(Contents(wrid[..], scat[..], held))
      {
        OneLeft(St(), max, maxGs);
        AcceptedNext(|chain|, maxGs, wrs, n);
        if |wrs[n].sges| > maxGs {
          err := Invalid;
          break;
        }
        if head == tail {
          err := NoMemory;
          break;
        }
        Fill(wrs[n]);
        SeenMore(wrs, n, old(posted));
        n := n + 1;
      }
      CountsMore(counter, |old(posted)|, n);
      counter := (counter + n) % 0x1_0000;
    }

    method Fill(wr: Request)
      requires next.Length == wrid.Length == scat.Length == max && next != wrid
      requires St().Shape(max) && St().Inv(max, maxGs) && head != tail && |wr.sges| <= maxGs
      modifies this`head, this`queue, this`chain, this`posted, wrid, scat
      ensures St().Shape(max) && St().Inv(max, maxGs) && posted == old(posted) + [Request(wr.wrId, Effective(wr.sges))]
      ensures |chain| == |old(chain)| - 1 && |queue| == |old(queue)| + 1
      ensures Contents(wrid[..], scat[..], held) == old(Contents(wrid[..], scat[..], held))
    {
      OneLeft(St(), max, maxGs);
      ghost var before := St();
      var h := head;
      wrid[h] := wr.wrId;
      head := next[h];
      var segs := WriteSegs(scat[h], wr.sges);
      scat[h] := segs;
      queue, chain, posted := queue + [h], chain[1..], posted + [Request(wr.wrId, Effective(wr.sges))];
      PostKeepsInv(before, St(), max, maxGs, posted[|before.posted|], segs);
    }

    /** Takes back the `k`-th WQE the device is done with. */
    method FreeWqe(ind: nat, ghost k: nat)
      requires Valid() && k < |held| && held[k] == ind
      modifies this`tail, this`chain, this`held, next
      ensures Valid() && chain == old(chain) + [ind] && held == Without(old(held), k)
      ensures Contents(wrid[..], scat[..], held) == Without(old(Contents(wrid[..], scat[..], held)), k)
    {
      hide State.Inv, Effective, Contents;
      ghost var before := St();
      InvShape(before, max, maxGs);
      InvBelow(before, max, maxGs);
      ContentsWithout(wrid[..], scat[..], held, k);
      next[tail] := ind;
      tail := ind;
      chain, held := chain + [ind], Without(held, k);
      FreeKeepsInv(before, St(), max, maxGs, k);
      InvShape(St(), max, maxGs);
    }

    /** The device consumes the WQE at its list position. Requests reach it in the order in
        which they were posted. */
    method DeviceConsume() returns (ind: nat)
      requires Valid() && queue != []
      modifies this`hw, this`queue, this`held
      ensures ind < max && next.Length == wrid.Length == scat.Length == max && |queue| < |posted|
      ensures Valid() && queue == old(queue)[1..] && held == old(held) + [ind] && ind == old(hw)
      ensures Request(wrid[ind], Effective(scat[ind])) == posted[|posted| - |old(queue)|]
      ensures Contents(wrid[..], scat[..], held)
        == old(Contents(wrid[..], scat[..], held)) + [Request(wrid[ind], Effective(scat[ind]))]
    {
      hide State.Inv, Effective;
      ghost var before := St();
      ind := hw;
      InvShape(before, max, maxGs);
      InvBelow(before, max, maxGs);
      ContentsMore(wrid[..], scat[..], held, ind);
      hw := next[hw];
      queue, held := queue[1..], held + [ind];
      ConsumeKeepsInv(before, St(), max, maxGs);
      InvShape(St(), max, maxGs);
    }

    /** Hands the request of a completed WQE to the device again, in another WQE. This never
        runs out of WQEs, and the outstanding requests stay the same. */
    method Requeue(ind: nat, ghost k: nat)
      requires Valid() && k < |held| && held[k] == ind
      modifies this`head, this`tail, this`counter, this`queue, this`chain, this`held, this`posted, next, wrid, scat
      ensures Valid() && held == Without(old(held), k) && |chain| == |old(chain)| && |queue| == |old(queue)| + 1
      ensures posted == old(posted) + [Request(old(wrid[ind]), Effective(old(scat[ind])))]
      ensures St().Outstanding() == old(St().Outstanding())
      ensures Contents(wrid[..], scat[..], held) == Without(old(Contents(wrid[..], scat[..], held)), k)
    {
      hide State.Inv, State.Shape, Effective, Contents, Without, State.Outstanding, Counts;
      ghost var before := St();
      HeldAt(this, k);
      InvShape(before, max, maxGs);
      ghost var req := Request(wrid[ind], Effective(scat[ind]));
      var h := head;
      wrid[h] := wrid[ind];
      next[tail] := ind;
      tail := ind;
      head := next[h];
      var segs := CopySegs(scat[h], scat[ind]);
      scat[h] := segs;
      CountsMore(counter, |posted|, 1);
      counter := (counter + 1) % 0x1_0000;
      queue, chain, held := queue + [h], (chain + [ind])[1..], Without(held, k);
      posted := posted + [req];
      ghost var next' := before.next[before.tail := ind];
      assert next[..] == next' && wrid[..] == before.wrid[h := before.wrid[ind]] && scat[..] == before.scat[h := segs];
      RequeueKeepsInv(before, St(), max, maxGs, k, segs);
      InvShape(St(), max, maxGs);
    }
  }

  function Range(max: nat): (r: seq<nat>)
    ensures |r| == max && forall i :: 0 <= i < max ==> r[i] == i
  {
    if max == 0 then [] else Range(max - 1) + [max - 1]
  }

  lemma {:induction false} RangePartition(max: nat)
    ensures Partition(Range(max), max)
  {
    if max > 0 {
      RangePartition(max - 1);
    }
  }

  /** What the device will see of a list of requests. */
  function Seen(wrs: seq<Request>): (r: seq<Request>)
    ensures |r| == |wrs|
  {
    seq(|wrs|, i requires 0 <= i < |wrs| => Request(wrs[i].wrId, Effective(wrs[i].sges)))
  }

  lemma SeenNone(wrs: seq<Request>, p: seq<Request>)
    ensures p + Seen(wrs[..0]) == p && wrs[0..] == wrs
  {
  }

  lemma SeenMore(wrs: seq<Request>, n: nat, p: seq<Request>)
    requires n < |wrs|
    ensures p + Seen(wrs[..n]) + [Request(wrs[n].wrId, Effective(wrs[n].sges))] == p + Seen(wrs[..n + 1])
  {
    hide Effective;
    assert Seen(wrs[..n + 1]) == Seen(wrs[..n]) + [Request(wrs[n].wrId, Effective(wrs[n].sges))];
  }

  /** Head and tail meet exactly when the free list has one element. */
  lemma OneLeft(st: State, max: nat, maxGs: nat)
    requires st.Inv(max, maxGs)
    ensures st.head == st.tail <==> |st.chain| == 1
  {
    if |st.chain| > 1 {
      var all, q := st.queue + st.chain + st.held, |st.queue|;
      assert all[q] == st.head && all[q + |st.chain| - 1] == st.tail;
      OnceEach(all, max, q, q + |st.chain| - 1);
    }
  }

  /** What can happen to a queue. `Free` and `Repost` name a WQE by its place among those
      the device has consumed. */
  datatype Event = Post(wrs: seq<Request>) | Consume | Free(k: nat) | Repost(k: nat)

  /** The same events on the view. */
  function After(v: View, maxGs: nat, ev: Event): View {
    match ev
    case Post(wrs) =>
      var n := Accepted(v.free, maxGs, wrs);
      v.(posted := v.posted + Seen(wrs[..n]), free := v.free - n)
    case Consume =>
      if v.taken < |v.posted| then v.(taken := v.taken + 1, held := v.held + [v.posted[v.taken]]) else v
    case Free(k) =>
      if k < |v.held| then v.(held := Without(v.held, k), free := v.free + 1) else v
    case Repost(k) =>
      if k < |v.held| then v.(held := Without(v.held, k), posted := v.posted + [v.held[k]]) else v
  }

  /** What the device receives. */
  function Received(v: View, ev: Event): seq<Request> {
    if ev.Consume? && v.taken < |v.posted| then [v.posted[v.taken]] else []
  }

  function AfterAll(v: View, maxGs: nat, script: seq<Event>): View {
    if script == [] then v else After(AfterAll(v, maxGs, script[..|script| - 1]), maxGs, script[|script| - 1])
  }

  function ReceivedAll(v: View, maxGs: nat, script: seq<Event>): seq<Request> {
    if script == [] then [] else
      ReceivedAll(v, maxGs, script[..|script| - 1]) +
      Received(AfterAll(v, maxGs, script[..|script| - 1]), script[|script| - 1])
  }

  /** The device receives the posted requests once each and in posting order. */
  lemma {:induction false} ReceivedInOrder(v: View, maxGs: nat, script: seq<Event>)
    requires v.taken <= |v.posted|
    ensures var v' := AfterAll(v, maxGs, script);
      && v.taken <= v'.taken <= |v'.posted| && v.posted <= v'.posted
      && ReceivedAll(v, maxGs, script) == v'.posted[v.taken..v'.taken]
  {
    if script != [] {
      var u, e := AfterAll(v, maxGs, script[..|script| - 1]), script[|script| - 1];
      ReceivedInOrder(v, maxGs, script[..|script| - 1]);
      AfterKeeps(u, maxGs, e);
      Stretch(v.posted, u.posted, After(u, maxGs, e).posted, v.taken, u.taken, After(u, maxGs, e).taken);
    }
  }

  lemma AfterKeeps(v: View, maxGs: nat, ev: Event)
    requires v.taken <= |v.posted|
    ensures var v' := After(v, maxGs, ev);
      v.taken <= v'.taken <= |v'.posted| && v.posted <= v'.posted && Received(v, ev) == v'.posted[v.taken..v'.taken]
  {
    hide Accepted, Seen, Without;
  }

  /** No WQE is lost: in every run from a fresh queue of `size`, those that are free, those that the device has still to
      consume and those consumed and not given back are `size` in all. */
  lemma {:induction false} NoneLost(size: nat, maxGs: nat, script: seq<Event>)
    ensures var v := AfterAll(View([], 0, [], size), maxGs, script);
      v.taken <= |v.posted| && v.free + (|v.posted| - v.taken) + |v.held| == size
  {
    if script != [] {
      NoneLost(size, maxGs, script[..|script| - 1]);
      hide Seen, Accepted;
    }
  }

  lemma Stretch<T>(a: seq<T>, b: seq<T>, c: seq<T>, i: nat, j: nat, k: nat)
    requires a <= b <= c && i <= j <= k && i <= |a| && j <= |b| && k <= |c|
    ensures b[i..j] + c[j..k] == c[i..k] && a <= c
  {
  }

  /** Every run from a fresh queue is a run of the view: what was posted is the accepted part of every list and every
      reposted request, in order, and the device received what the view says, whatever WQEs the requests travelled
      in. */
  method Run(size: nat, gs: nat, script: seq<Event>) returns (q: Srq, got: seq<Request>)
    requires 0 < size <= 0x1_0000
    ensures q.Valid() && q.User() == AfterAll(View([], 0, [], size), gs, script)
    ensures got == ReceivedAll(View([], 0, [], size), gs, script)
    ensures got + q.posted[|q.posted| - |q.queue|..] == q.posted
  {
    hide *;
    q := new Srq(size, gs);
    got := [];
    var held := [];
    StartView(q, size);
    for i := 0 to |script|
      invariant fresh(q) && fresh(q.next) && fresh(q.wrid) && fresh(q.scat) && q.maxGs == gs
      invariant q.Valid() && q.held == held && q.User() == AfterAll(View([], 0, [], size), gs, script[..i])
      invariant got == ReceivedAll(View([], 0, [], size), gs, script[..i])
    {
      var g;
      g, held := Step(q, script[i], held);
      NextEvent(View([], 0, [], size), gs, script, i);
      got := got + g;
    }
    assert script[..|script|] == script;
    ReceivedInOrder(View([], 0, [], size), gs, script);
    UserPosted(q);
  }

  lemma StartView(q: Srq, size: nat)
    requires q.Valid() && q.queue == q.held == [] && q.posted == [] && |q.chain| == size
    ensures q.User() == AfterAll(View([], 0, [], size), q.maxGs, [])
    ensures ReceivedAll(View([], 0, [], size), q.maxGs, []) == []
  {
    hide State.Inv;
  }

  lemma NextEvent(v: View, maxGs: nat, script: seq<Event>, i: nat)
    requires i < |script|
    ensures AfterAll(v, maxGs, script[..i + 1]) == After(AfterAll(v, maxGs, script[..i]), maxGs, script[i])
    ensures ReceivedAll(v, maxGs, script[..i + 1]) ==
            ReceivedAll(v, maxGs, script[..i]) + Received(AfterAll(v, maxGs, script[..i]), script[i])
  {
    assert script[..i + 1][..i] == script[..i];
  }

  lemma UserPosted(q: Srq)
    requires q.Valid()
    ensures q.User().posted == q.posted && q.User().taken == |q.posted| - |q.queue|
  {
    hide State.Inv;
  }

  /** One event; `held` are the WQEs the device has consumed. */
  method Step(q: Srq, ev: Event, held: seq<nat>) returns (got: seq<Request>, held': seq<nat>)
    requires q.Valid() && q.held == held
    modifies q, q.next, q.wrid, q.scat
    ensures q.Valid() && q.held == held'
    ensures q.User() == After(old(q.User()), q.maxGs, ev) && got == Received(old(q.User()), ev)
  {
    hide State.Inv, Effective, Contents, Accepted, Seen, Without;
    got, held' := [], held;
    match ev
    case Post(wrs) =>
      var _, _ := q.PostRecv(wrs);
    case Consume =>
      HwAtHead(q.St(), q.max, q.maxGs);
      if q.hw != q.head {
        var ind := q.DeviceConsume();
        got, held' := [Request(q.wrid[ind], Effective(q.scat[ind]))], held + [ind];
      }
    case Free(k) =>
      if k < |held| {
        q.FreeWqe(held[k], k);
        held' := Without(held, k);
      }
    case Repost(k) =>
      if k < |held| {
        HeldAt(q, k);
        q.Requeue(held[k], k);
        held' := Without(held, k);
      }
  }

  lemma HeldAt(q: Srq, k: nat)
    requires q.Valid() && k < |q.held|
    ensures q.held[k] < q.max && q.User().held[k] == Request(q.wrid[q.held[k]], Effective(q.scat[q.held[k]]))
  {
    hide State.Inv, Effective;
    InvBelow(q.St(), q.max, q.maxGs);
  }

  /** The device has caught up exactly when it stands at the head of the free list. */
  lemma HwAtHead(st: State, max: nat, maxGs: nat)
    requires st.Inv(max, maxGs)
    ensures st.hw == st.head <==> st.queue == []
  {
    if st.queue != [] {
      var all := st.queue + st.chain + st.held;
      assert all[0] == st.hw && all[|st.queue|] == st.head;
      OnceEach(all, max, 0, |st.queue|);
    }
  }
}
