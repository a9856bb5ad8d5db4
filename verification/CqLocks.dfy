/** Threads that lock the completion queues of queue pairs, in the order of their numbers.

    A completion queue is its number; a queue pair has a send and a receive queue, which
    may be the same or absent.
 */
module CqLocks {
  import opened Common

  datatype Qp = Qp(send: Option<nat>, recv: Option<nat>)

  datatype Action = Lock(cq: nat) | Unlock(cq: nat)

  function LockCqs(qp: Qp): seq<Action> {
    match (qp.send, qp.recv)
    case (Some(s), Some(r)) =>
      if s == r then [Lock(s)] else if s < r then [Lock(s), Lock(r)] else [Lock(r), Lock(s)]
    case (Some(s), None) => [Lock(s)]
    case (None, Some(r)) => [Lock(r)]
    case (None, None) => []
  }

  function UnlockCqs(qp: Qp): seq<Action> {
    match (qp.send, qp.recv)
    case (Some(s), Some(r)) =>
      if s == r then [Unlock(s)] else if s < r then [Unlock(r), Unlock(s)] else [Unlock(s), Unlock(r)]
    case (Some(s), None) => [Unlock(s)]
    case (None, Some(r)) => [Unlock(r)]
    case (None, None) => []
  }

  /** A thread works on one queue pair after the other. */
  function Program(qps: seq<Qp>): seq<Action> {
    if qps == [] then [] else LockCqs(qps[0]) + UnlockCqs(qps[0]) + Program(qps[1..])
  }

  /** What a thread holds, oldest first, and what it still has to do. */
  datatype Thread = Thread(held: seq<nat>, todo: seq<Action>)

  /** The rest of the thread takes locks in increasing order only, releases the newest first, and ends without any. */
  ghost predicate Follows(held: seq<nat>, todo: seq<Action>)
    decreases |todo|
  {
    if todo == [] then held == [] else
      match todo[0]
      case Lock(c) => (forall i :: 0 <= i < |held| ==> held[i] < c) && Follows(held + [c], todo[1..])
      case Unlock(c) => held != [] && held[|held| - 1] == c && Follows(held[..|held| - 1], todo[1..])
  }

  lemma {:induction false} ProgramFollows(qps: seq<Qp>)
    ensures Follows([], Program(qps))
  {
    if qps != [] {
      var rest := Program(qps[1..]);
      ProgramFollows(qps[1..]);
      match (qps[0].send, qps[0].recv)
      case (Some(s), Some(r)) =>
        if s == r { OneLock(s, rest); } else if s < r { TwoLocks(s, r, rest); } else { TwoLocks(r, s, rest); }
      case (Some(s), None) => OneLock(s, rest);
      case (None, Some(r)) => OneLock(r, rest);
      case (None, None) => assert Program(qps) == rest;
    }
  }

  lemma OneLock(a: nat, rest: seq<Action>)
    requires Follows([], rest)
    ensures Follows([], [Lock(a)] + [Unlock(a)] + rest)
  {
    FollowsUnlock([], a, rest);
    FollowsLock([], a, [Unlock(a)] + rest);
    assert [Lock(a)] + ([Unlock(a)] + rest) == [Lock(a)] + [Unlock(a)] + rest;
  }

  lemma TwoLocks(a: nat, b: nat, rest: seq<Action>)
    requires a < b && Follows([], rest)
    ensures Follows([], [Lock(a), Lock(b)] + [Unlock(b), Unlock(a)] + rest)
  {
    var t1 := [Unlock(a)] + rest;
    var t2 := [Unlock(b)] + t1;
    var t3 := [Lock(b)] + t2;
    FollowsUnlock([], a, rest);
    FollowsUnlock([a], b, t1);
    FollowsLock([a], b, t2);
    FollowsLock([], a, t3);
    assert [Lock(a)] + t3 == [Lock(a), Lock(b)] + [Unlock(b), Unlock(a)] + rest;
  }

  lemma FollowsLock(held: seq<nat>, c: nat, rest: seq<Action>)
    requires (forall i :: 0 <= i < |held| ==> held[i] < c) && Follows(held + [c], rest)
    ensures Follows(held, [Lock(c)] + rest)
  {
    assert ([Lock(c)] + rest)[1..] == rest;
  }

  lemma FollowsUnlock(held: seq<nat>, c: nat, rest: seq<Action>)
    requires Follows(held, rest)
    ensures Follows(held + [c], [Unlock(c)] + rest)
  {
    assert ([Unlock(c)] + rest)[1..] == rest;
    assert (held + [c])[..|held|] == held;
  }

  // ---------------------------------------------------------------- all threads

  ghost predicate Holds(s: seq<Thread>, i: nat, c: nat) {
    i < |s| && c in s[i].held
  }

  /** Each thread follows the order, and no lock is held twice. */
  ghost predicate Inv(s: seq<Thread>) {
    && (forall i :: 0 <= i < |s| ==> Follows(s[i].held, s[i].todo))
    && (forall i: nat, j: nat, c: nat :: Holds(s, i, c) && Holds(s, j, c) ==> i == j)
  }

  ghost predicate Blocked(s: seq<Thread>, i: nat, c: nat) {
    i < |s| && s[i].todo != [] && s[i].todo[0] == Lock(c) && exists j: nat :: Holds(s, j, c)
  }

  ghost predicate Enabled(s: seq<Thread>, i: nat) {
    i < |s| && s[i].todo != [] && forall c: nat :: !Blocked(s, i, c)
  }

  ghost function Step(s: seq<Thread>, i: nat): seq<Thread>
    requires i < |s| && s[i].todo != [] && Follows(s[i].held, s[i].todo)
  {
    var t := s[i];
    match t.todo[0]
    case Lock(c) => s[i := Thread(t.held + [c], t.todo[1..])]
    case Unlock(c) => s[i := Thread(t.held[..|t.held| - 1], t.todo[1..])]
  }

  lemma StepKeepsInv(s: seq<Thread>, i: nat)
    requires Inv(s) && Enabled(s, i)
    ensures Inv(Step(s, i))
  {
    var t, s' := s[i], Step(s, i);
    forall a: nat, b: nat, c: nat | Holds(s', a, c) && Holds(s', b, c)
      ensures a == b
    {
      match t.todo[0]
      case Unlock(_) => assert Holds(s, a, c) && Holds(s, b, c);
      case Lock(d) =>
        assert !Blocked(s, i, d);
        assert a != i || c != d ==> Holds(s, a, c);
        assert b != i || c != d ==> Holds(s, b, c);
    }
  }

  /** Every reachable state: threads start with nothing and take enabled steps. */
  ghost function Start(work: seq<seq<Qp>>): (s: seq<Thread>)
    ensures |s| == |work| && forall i :: 0 <= i < |s| ==> s[i] == Thread([], Program(work[i]))
  {
    seq(|work|, i requires 0 <= i < |work| => Thread([], Program(work[i])))
  }

  ghost predicate Took(r: seq<Thread>, s: seq<Thread>, i: nat) {
    Enabled(r, i) && Follows(r[i].held, r[i].todo) && s == Step(r, i)
  }

  /** A run: the states passed, and the thread that took each step. */
  ghost predicate Run(work: seq<seq<Qp>>, states: seq<seq<Thread>>, script: seq<nat>) {
    && |states| == |script| + 1 && states[0] == Start(work)
    && forall k: nat :: k < |script| ==> TookAt(states, script, k)
  }

  ghost predicate TookAt(states: seq<seq<Thread>>, script: seq<nat>, k: nat)
    requires |states| == |script| + 1 && k < |script|
  {
    Took(states[k], states[k + 1], script[k])
  }

  lemma {:induction false} RunInv(work: seq<seq<Qp>>, states: seq<seq<Thread>>, script: seq<nat>, k: nat)
    requires Run(work, states, script) && k < |states|
    ensures Inv(states[k]) && |states[k]| == |work|
  {
    if k == 0 {
      forall i | 0 <= i < |work|
        ensures Follows(states[0][i].held, states[0][i].todo)
      {
        ProgramFollows(work[i]);
      }
    } else {
      RunInv(work, states, script, k - 1);
      assert TookAt(states, script, k - 1);
      StepKeepsInv(states[k - 1], script[k - 1]);
    }
  }

  /** No deadlock: as long as a thread has work left, some thread can step. */
  lemma Progress(work: seq<seq<Qp>>, states: seq<seq<Thread>>, script: seq<nat>, k: nat)
    requires Run(work, states, script) && k < |states|
    ensures var s := states[k]; (exists i: nat :: i < |s| && s[i].todo != []) ==> exists i: nat :: Enabled(s, i)
  {
    RunInv(work, states, script, k);
    var s := states[k];
    if i: nat :| i < |s| && s[i].todo != [] {
      var j := SomeEnabled(s, i, Ceiling(s, |s|));
    }
  }

  /** A lock number that no blocked thread exceeds. */
  ghost function Ceiling(s: seq<Thread>, n: nat): (m: nat)
    requires n <= |s|
    ensures forall i: nat, c: nat :: i < n && Blocked(s, i, c) ==> c < m
  {
    if n == 0 then 0 else
      var m := Ceiling(s, n - 1);
      if s[n - 1].todo != [] && s[n - 1].todo[0].Lock? && s[n - 1].todo[0].cq >= m then s[n - 1].todo[0].cq + 1 else m
  }

  /** Following the holders of the locks waited for climbs to a thread that can step. */
  lemma {:induction false} SomeEnabled(s: seq<Thread>, i: nat, ceiling: nat) returns (k: nat)
    requires Inv(s) && i < |s| && s[i].todo != []
    requires forall j: nat, c: nat :: Blocked(s, j, c) ==> c < ceiling
    ensures Enabled(s, k)
    decreases ceiling - (if s[i].todo[0].Lock? then s[i].todo[0].cq else 0)
  {
    if Enabled(s, i) {
      k := i;
    } else {
      var c: nat :| Blocked(s, i, c);
      var j: nat :| Holds(s, j, c);
      HolderHasWork(s[j], c);
      if s[j].todo[0].Unlock? {
        k := j;
      } else {
        k := SomeEnabled(s, j, ceiling);
      }
    }
  }

  /** A thread that holds a lock is not done, and only waits for higher ones. */
  lemma HolderHasWork(t: Thread, c: nat)
    requires Follows(t.held, t.todo) && c in t.held
    ensures t.todo != [] && (t.todo[0].Lock? ==> c < t.todo[0].cq)
  {
  }

  /** What a thread releases for a queue pair is what it took for it, in reverse. */
  lemma ReleasesWhatItTook(qp: Qp)
    ensures |UnlockCqs(qp)| == |LockCqs(qp)|
    ensures forall i :: 0 <= i < |LockCqs(qp)| ==>
      LockCqs(qp)[i].Lock? && UnlockCqs(qp)[|LockCqs(qp)| - 1 - i] == Unlock(LockCqs(qp)[i].cq)
    ensures forall c: nat :: Lock(c) in LockCqs(qp) <==> qp.send == Some(c) || qp.recv == Some(c)
  {
  }

  /** A thread locks and unlocks for one queue pair after the other. */
  lemma {:induction false} ProgramAt(qps: seq<Qp>, k: nat)
    requires k < |qps|
    ensures Program(qps) ==
      Program(qps[..k]) + (LockCqs(qps[k]) + (UnlockCqs(qps[k]) + Program(qps[k + 1..])))
  {
    hide LockCqs, UnlockCqs;
    if k == 0 {
      assert Program(qps[..0]) == [];
    } else {
      ProgramAt(qps[1..], k - 1);
      assert qps[1..][k - 1] == qps[k] && qps[1..][k..] == qps[k + 1..] && qps[..k][1..] == qps[1..][..k - 1];
      var first := LockCqs(qps[0]) + UnlockCqs(qps[0]);
      var tail := LockCqs(qps[k]) + (UnlockCqs(qps[k]) + Program(qps[k + 1..]));
      assert first + (Program(qps[..k][1..]) + tail) == first + Program(qps[..k][1..]) + tail;
    }
  }

  lemma FollowsNext(held: seq<nat>, a: Action, rest: seq<Action>)
    requires Follows(held, [a] + rest)
    ensures a.Lock? ==> Follows(held + [a.cq], rest)
    ensures a.Unlock? ==> held != [] && held[|held| - 1] == a.cq && Follows(held[..|held| - 1], rest)
  {
    assert ([a] + rest)[1..] == rest;
  }

  lemma FollowsOne(held: seq<nat>, a: nat, rest: seq<Action>)
    requires Follows(held, [Lock(a)] + [Unlock(a)] + rest)
    ensures Follows(held, rest)
  {
    assert [Lock(a)] + [Unlock(a)] + rest == [Lock(a)] + ([Unlock(a)] + rest);
    FollowsNext(held, Lock(a), [Unlock(a)] + rest);
    FollowsNext(held + [a], Unlock(a), rest);
    assert (held + [a])[..|held|] == held;
  }

  lemma FollowsTwo(held: seq<nat>, a: nat, b: nat, rest: seq<Action>)
    requires Follows(held, [Lock(a), Lock(b)] + [Unlock(b), Unlock(a)] + rest)
    ensures Follows(held, rest)
  {
    var t1 := [Unlock(a)] + rest;
    assert [Lock(a), Lock(b)] + [Unlock(b), Unlock(a)] + rest == [Lock(a)] + ([Lock(b)] + [Unlock(b)] + t1);
    FollowsNext(held, Lock(a), [Lock(b)] + [Unlock(b)] + t1);
    FollowsOne(held + [a], b, t1);
    FollowsNext(held + [a], Unlock(a), rest);
    assert (held + [a])[..|held|] == held;
  }

  /** Between queue pairs a thread holds nothing. */
  lemma {:induction false} BetweenPairs(held: seq<nat>, qps: seq<Qp>)
    requires Follows(held, Program(qps))
    ensures held == []
  {
    if qps != [] {
      var rest := Program(qps[1..]);
      match (qps[0].send, qps[0].recv) {
        case (Some(s), Some(r)) =>
          if s == r { FollowsOne(held, s, rest); } else if s < r { FollowsTwo(held, s, r, rest); }
          else { FollowsTwo(held, r, s, rest); }
        case (Some(s), None) => FollowsOne(held, s, rest);
        case (None, Some(r)) => FollowsOne(held, r, rest);
        case (None, None) => assert Program(qps) == rest;
      }
      BetweenPairs(held, qps[1..]);
    }
  }

  /** The thread has locked the queues of `qp` and has not begun to unlock them. */
  ghost predicate Working(t: Thread, qp: Qp, rest: seq<Qp>) {
    Follows(t.held, t.todo) && t.todo == UnlockCqs(qp) + Program(rest)
  }

  /** Then it holds these queues and no others. */
  lemma WorkingHolds(t: Thread, qp: Qp, rest: seq<Qp>, c: nat)
    requires Working(t, qp, rest)
    ensures c in t.held <==> qp.send == Some(c) || qp.recv == Some(c)
  {
    var n, after := |t.held|, Program(rest);
    hide Follows, Program;
    match (qp.send, qp.recv)
    case (Some(s), Some(r)) =>
      if s == r {
        WorkingOne(t.held, s, rest);
      } else if s < r {
        WorkingTwo(t.held, s, r, rest);
      } else {
        WorkingTwo(t.held, r, s, rest);
      }
    case (Some(s), None) => WorkingOne(t.held, s, rest);
    case (None, Some(r)) => WorkingOne(t.held, r, rest);
    case (None, None) =>
      assert [] + after == after;
      BetweenPairs(t.held, rest);
  }

  lemma WorkingOne(held: seq<nat>, a: nat, rest: seq<Qp>)
    requires Follows(held, [Unlock(a)] + Program(rest))
    ensures held == [a]
  {
    FollowsNext(held, Unlock(a), Program(rest));
    BetweenPairs(held[..|held| - 1], rest);
  }

  lemma WorkingTwo(held: seq<nat>, a: nat, b: nat, rest: seq<Qp>)
    requires Follows(held, [Unlock(b), Unlock(a)] + Program(rest))
    ensures held == [a, b]
  {
    hide Follows, Program;
    OneByOne(Unlock(b), Unlock(a), Program(rest));
    FollowsNext(held, Unlock(b), [Unlock(a)] + Program(rest));
    WorkingOne(held[..|held| - 1], a, rest);
    assert held == held[..|held| - 1] + [held[|held| - 1]];
  }

  lemma OneByOne<T>(x: T, y: T, rest: seq<T>)
    ensures [x, y] + rest == [x] + ([y] + rest)
  {
  }

  /** Mutual exclusion: in every run, two threads that have locked the queues of their queue pairs share none. */
  lemma Exclusive(work: seq<seq<Qp>>, states: seq<seq<Thread>>, script: seq<nat>, k: nat, i: nat, j: nat,
                  p: Qp, q: Qp, restP: seq<Qp>, restQ: seq<Qp>, c: nat)
    requires Run(work, states, script) && k < |states| && i < |states[k]| && j < |states[k]| && i != j
    requires Working(states[k][i], p, restP) && Working(states[k][j], q, restQ)
    ensures !((p.send == Some(c) || p.recv == Some(c)) && (q.send == Some(c) || q.recv == Some(c)))
  {
    RunInv(work, states, script, k);
    hide Working, Follows;
    WorkingHolds(states[k][i], p, restP, c);
    WorkingHolds(states[k][j], q, restQ, c);
    assert Holds(states[k], i, c) ==> !Holds(states[k], j, c);
  }

  /** A finished thread holds nothing. */
  lemma FinishedHoldsNothing(work: seq<seq<Qp>>, states: seq<seq<Thread>>, script: seq<nat>, k: nat, i: nat)
    requires Run(work, states, script) && k < |states| && i < |work|
    ensures |states[k]| == |work| && (states[k][i].todo == [] ==> states[k][i].held == [])
  {
    RunInv(work, states, script, k);
  }

  ghost function Left(s: seq<Thread>): nat {
    if s == [] then 0 else Left(s[..|s| - 1]) + |s[|s| - 1].todo|
  }

  lemma {:induction false} LeftUpdate(s: seq<Thread>, i: nat, t: Thread)
    requires i < |s|
    ensures Left(s[i := t]) == Left(s) - |s[i].todo| + |t.todo|
  {
    var n := |s| - 1;
    if i == n {
      assert s[i := t][..n] == s[..n];
    } else {
      LeftUpdate(s[..n], i, t);
      assert s[i := t][..n] == s[..n][i := t];
    }
  }

  /** Every step uses up one action, so every run can be continued until all threads are finished, and no further. */
  lemma {:induction false} RunLength(work: seq<seq<Qp>>, states: seq<seq<Thread>>, script: seq<nat>, k: nat)
    requires Run(work, states, script) && k < |states|
    ensures Left(states[k]) + k == Left(Start(work))
  {
    if k > 0 {
      RunLength(work, states, script, k - 1);
      assert TookAt(states, script, k - 1);
      var s, i := states[k - 1], script[k - 1];
      LeftUpdate(s, i, Step(s, i)[i]);
      assert Step(s, i) == s[i := Step(s, i)[i]];
    }
  }
}
