/** The counted completion of a calculation that is split into several launches.

    Each call takes a multi-completion object from a pool and counts its launches down on
    it: a launch that fails is accounted for at once, one that was posted when its receive
    completes. Launches and completions of any number of calls may interleave; each is
    one step here.
 */
module ErasureCompletion {
  import opened Common

  datatype Status = Success | Fail

  /** A multi-completion object: the call it serves (-1 for none) and what is still owed. */
  datatype Multi = Multi(orig: int, counter: int)

  /** What is known of a call: its object, its number of launches, those attempted and those that failed. */
  datatype Req = Req(multi: nat, total: nat, launched: nat, fails: nat)

  datatype State = State(
    multis: seq<Multi>, multiPool: seq<nat>,
    comps: seq<int>, compPool: seq<nat>,     // a launch's object refers to a multi-completion, -1 for none
    orig: seq<Status>, calls: seq<seq<Status>>, reqs: seq<Req>)

  /** How many posted launches belong to `x`. */
  ghost function Live(comps: seq<int>, x: int): nat {
    if comps == [] then 0 else (if comps[|comps| - 1] == x then 1 else 0) + Live(comps[..|comps| - 1], x)
  }

  lemma {:induction false} LiveUpdate(comps: seq<int>, c: nat, y: int, x: int)
    requires c < |comps|
    ensures Live(comps[c := y], x) == Live(comps, x) - (if comps[c] == x then 1 else 0) + (if y == x then 1 else 0)
  {
    var n := |comps| - 1;
    if c == n {
      assert comps[c := y][..n] == comps[..n];
    } else {
      LiveUpdate(comps[..n], c, y, x);
      assert comps[c := y][..n] == comps[..n][c := y];
    }
  }

  lemma {:induction false} LiveNone(comps: seq<int>, x: int)
    ensures Live(comps, x) == 0 <==> forall c :: 0 <= c < |comps| ==> comps[c] != x
  {
    if comps != [] {
      LiveNone(comps[..|comps| - 1], x);
    }
  }

  /** Call `u`: it has been called back exactly when every launch is accounted for, with failure exactly when one
      failed; until then its object is its own. One more accounting is owed to object `owed`. */
  ghost predicate UserOk(s: State, u: nat, owed: int)
    requires u < |s.reqs| == |s.orig| == |s.calls|
  {
    var r := s.reqs[u];
    && r.launched <= r.total
    && s.orig[u] == (if r.fails > 0 then Fail else Success)
    && if s.calls[u] == [] then
         && r.multi < |s.multis| && r.multi !in s.multiPool && s.multis[r.multi].orig == u
         && s.multis[r.multi].counter
           == r.total - r.launched + Live(s.comps, r.multi) + (if owed == r.multi then 1 else 0)
         && s.multis[r.multi].counter > 0
       else
         && s.calls[u] == [s.orig[u]] && r.launched == r.total
  }

  ghost predicate MultiOk(s: State, x: nat)
    requires x < |s.multis| && |s.reqs| == |s.calls|
  {
    && (x in s.multiPool <==> s.multis[x].orig == -1)
    && (x !in s.multiPool ==>
      var u := s.multis[x].orig; 0 <= u < |s.reqs| && s.calls[u] == [] && s.reqs[u].multi == x)
  }

  ghost predicate CompOk(s: State, c: nat)
    requires c < |s.comps|
  {
    && (c in s.compPool <==> s.comps[c] == -1)
    && (c !in s.compPool ==> 0 <= s.comps[c] < |s.multis| && s.comps[c] !in s.multiPool)
  }

  ghost predicate Inv(s: State, owed: int) {
    && |s.reqs| == |s.orig| == |s.calls|
    && NoDups(s.multiPool) && (forall i :: 0 <= i < |s.multiPool| ==> s.multiPool[i] < |s.multis|)
    && NoDups(s.compPool) && (forall i :: 0 <= i < |s.compPool| ==> s.compPool[i] < |s.comps|)
    && (forall u: nat :: u < |s.reqs| ==> UserOk(s, u, owed))
    && (forall x: nat :: x < |s.multis| ==> MultiOk(s, x))
    && (forall c: nat :: c < |s.comps| ==> CompOk(s, c))
  }

  /** The object of call `u` is still its own, and a launch of it is posted. */
  ghost predicate Pending(s: State, u: nat)
    requires u < |s.reqs|
  {
    var x := s.reqs[u].multi;
    x !in s.multiPool && x < |s.multis| && s.multis[x].orig == u && Live(s.comps, x) > 0
  }

  /** A call is answered exactly when it has launched everything and none of it is still posted. */
  lemma AnsweredOnce(s: State, u: nat)
    requires Inv(s, -1) && u < |s.reqs|
    ensures |s.calls[u]| <= 1
    ensures s.calls[u] != [] ==>
      s.calls[u] == [if s.reqs[u].fails > 0 then Fail else Success] && s.reqs[u].launched == s.reqs[u].total
    ensures s.calls[u] == [] <==> s.reqs[u].launched < s.reqs[u].total || Pending(s, u)
  {
    assert UserOk(s, u, -1);
    var x := s.reqs[u].multi;
    if x < |s.multis| { assert MultiOk(s, x); }
  }

  // ---------------------------------------------------------------- the steps

  ghost function Begun(s: State, total: nat): State
    requires s.multiPool != [] && s.multiPool[0] < |s.multis|
  {
    var x := s.multiPool[0];
    s.(multiPool := s.multiPool[1..], multis := s.multis[x := Multi(|s.reqs|, total)],
       orig := s.orig + [Success], calls := s.calls + [[]], reqs := s.reqs + [Req(x, total, 0, 0)])
  }

  lemma BeginKeepsInv(s: State, total: nat)
    requires Inv(s, -1) && s.multiPool != [] && total > 0
    ensures Inv(Begun(s, total), -1)
  {
    hide Live;
    var x, t := s.multiPool[0], Begun(s, total);
    forall c: nat | c < |s.comps|
      ensures s.comps[c] != x
    {
      assert CompOk(s, c);
      assert x in s.multiPool;
    }
    LiveNone(s.comps, x);
    forall u: nat | u < |t.reqs|
      ensures UserOk(t, u, -1)
    {
      if u < |s.reqs| { assert UserOk(s, u, -1); }
    }
    forall y: nat | y < |t.multis|
      ensures MultiOk(t, y)
    {
      assert MultiOk(s, y);
    }
    forall c: nat | c < |t.comps|
      ensures CompOk(t, c)
    {
      assert CompOk(s, c);
    }
  }

  ghost function Posted(s: State, u: nat): State
    requires u < |s.reqs| && s.compPool != [] && s.compPool[0] < |s.comps|
  {
    var c := s.compPool[0];
    s.(compPool := s.compPool[1..], comps := s.comps[c := s.reqs[u].multi],
       reqs := s.reqs[u := s.reqs[u].(launched := s.reqs[u].launched + 1)])
  }

  lemma PostKeepsInv(s: State, u: nat)
    requires Inv(s, -1) && u < |s.reqs| && s.reqs[u].launched < s.reqs[u].total && s.compPool != []
    ensures Inv(Posted(s, u), -1)
  {
    hide Live;
    var c, t := s.compPool[0], Posted(s, u);
    assert UserOk(s, u, -1) && CompOk(s, c);
    forall v: nat | v < |t.reqs|
      ensures UserOk(t, v, -1)
    {
      assert UserOk(s, v, -1);
      LiveUpdate(s.comps, c, s.reqs[u].multi, s.reqs[v].multi);
    }
    forall y: nat | y < |t.multis|
      ensures MultiOk(t, y)
    {
      assert MultiOk(s, y);
    }
    forall d: nat | d < |t.comps|
      ensures CompOk(t, d)
    {
      assert CompOk(s, d);
    }
  }

  ghost function Attempted(s: State, u: nat): State
    requires u < |s.reqs|
  {
    s.(reqs := s.reqs[u := s.reqs[u].(launched := s.reqs[u].launched + 1)])
  }

  lemma AttemptOwes(s: State, u: nat)
    requires Inv(s, -1) && u < |s.reqs| && s.reqs[u].launched < s.reqs[u].total
    ensures Inv(Attempted(s, u), s.reqs[u].multi)
  {
    hide Live;
    var t := Attempted(s, u);
    assert UserOk(s, u, -1);
    forall v: nat | v < |t.reqs|
      ensures UserOk(t, v, s.reqs[u].multi)
    {
      assert UserOk(s, v, -1);
    }
    forall y: nat | y < |t.multis|
      ensures MultiOk(t, y)
    {
      assert MultiOk(s, y);
    }
    forall d: nat | d < |t.comps|
      ensures CompOk(t, d)
    {
      assert CompOk(s, d);
    }
  }

  ghost function Released(s: State, c: nat): State
    requires c < |s.comps|
  {
    s.(compPool := [c] + s.compPool, comps := s.comps[c := -1])
  }

  lemma ReleaseOwes(s: State, c: nat)
    requires Inv(s, -1) && c < |s.comps| && c !in s.compPool
    ensures Inv(Released(s, c), s.comps[c])
  {
    hide Live;
    var t := Released(s, c);
    assert CompOk(s, c);
    forall v: nat | v < |t.reqs|
      ensures UserOk(t, v, s.comps[c])
    {
      assert UserOk(s, v, -1);
      LiveUpdate(s.comps, c, -1, s.reqs[v].multi);
    }
    forall y: nat | y < |t.multis|
      ensures MultiOk(t, y)
    {
      assert MultiOk(s, y);
    }
    forall d: nat | d < |t.comps|
      ensures CompOk(t, d)
    {
      assert CompOk(s, d);
    }
  }

  /** One launch of the call served by `x` is accounted for. */
  ghost function Accounted(s: State, x: nat, failed: bool): State
    requires x < |s.multis| && 0 <= s.multis[x].orig < |s.reqs| == |s.orig| == |s.calls|
  {
    var u := s.multis[x].orig;
    var orig' := if failed then s.orig[u := Fail] else s.orig;
    var t := s.(orig := orig', reqs := s.reqs[u := s.reqs[u].(fails := s.reqs[u].fails + if failed then 1 else 0)]);
    if s.multis[x].counter == 1 then
      t.(multis := s.multis[x := Multi(-1, 0)], multiPool := [x] + s.multiPool,
         calls := s.calls[u := s.calls[u] + [orig'[u]]])
    else
      t.(multis := s.multis[x := Multi(u, s.multis[x].counter - 1)])
  }

  lemma AccountKeepsInv(s: State, x: nat, failed: bool)
    requires Inv(s, x) && x < |s.multis| && x !in s.multiPool
    ensures 0 <= s.multis[x].orig < |s.reqs| && Inv(Accounted(s, x, failed), -1)
  {
    hide Live;
    assert MultiOk(s, x);
    var u := s.multis[x].orig;
    var t := Accounted(s, x, failed);
    assert UserOk(s, u, x);
    LiveNone(s.comps, x);
    forall v: nat | v < |t.reqs|
      ensures UserOk(t, v, -1)
    {
      assert UserOk(s, v, x);
    }
    forall y: nat | y < |t.multis|
      ensures MultiOk(t, y)
    {
      assert MultiOk(s, y);
      if y != x && y !in s.multiPool { assert s.multis[y].orig != u; }
    }
    forall d: nat | d < |t.comps|
      ensures CompOk(t, d)
    {
      assert CompOk(s, d);
    }
  }

  // ---------------------------------------------------------------- the driver

  datatype Event =
    | Begin(total: nat)                // a call for `total` launches
    | Launch(user: nat, fault: bool)   // its next launch; `fault`: blocks refused, or the receive cannot be posted
    | Complete(comp: nat, ok: bool)    // the receive of a posted launch completes

  /** What can happen next: a call asks for an object, whether or not there is one; a caller takes its next turn; a
      posted launch completes. */
  predicate Enabled(s: State, e: Event) {
    match e
    case Begin(total) => total > 0
    case Launch(u, _) => u < |s.reqs| && s.reqs[u].launched < s.reqs[u].total
    case Complete(c, _) => c < |s.comps| && c !in s.compPool
  }

  /** A step of the whole system. A launch without a launch object, or with a fault, is accounted for at once. */
  ghost function After(s: State, e: Event): State
    requires Inv(s, -1) && Enabled(s, e)
  {
    match e
    case Begin(total) => if s.multiPool == [] then s else Begun(s, total)
    case Launch(u, fault) =>
      CallOwns(s, u);
      if fault || s.compPool == [] then Accounted(Attempted(s, u), s.reqs[u].multi, true) else Posted(s, u)
    case Complete(c, ok) =>
      CompOwns(s, c);
      Accounted(Released(s, c), s.comps[c], !ok)
  }

  lemma CallOwns(s: State, u: nat)
    requires Inv(s, -1) && u < |s.reqs| && s.reqs[u].launched < s.reqs[u].total
    ensures |s.reqs| == |s.orig| == |s.calls| && s.calls[u] == []
    ensures var x := s.reqs[u].multi; x < |s.multis| && x !in s.multiPool && s.multis[x].orig == u
  {
    assert UserOk(s, u, -1);
  }

  lemma CompOwns(s: State, c: nat)
    requires Inv(s, -1) && c < |s.comps| && c !in s.compPool
    ensures 0 <= s.comps[c] < |s.multis| && s.comps[c] !in s.multiPool && |s.reqs| == |s.orig| == |s.calls|
    ensures var u := s.multis[s.comps[c]].orig; 0 <= u < |s.reqs| && s.calls[u] == []
  {
    assert CompOk(s, c) && MultiOk(s, s.comps[c]);
  }

  lemma AfterKeepsInv(s: State, e: Event)
    requires Inv(s, -1) && Enabled(s, e)
    ensures Inv(After(s, e), -1)
  {
    hide Inv;
    match e
    case Begin(total) => if s.multiPool != [] { BeginKeepsInv(s, total); }
    case Launch(u, fault) =>
      CallOwns(s, u);
      if fault || s.compPool == [] {
        AttemptOwes(s, u);
        AccountKeepsInv(Attempted(s, u), s.reqs[u].multi, true);
      } else {
        PostKeepsInv(s, u);
      }
    case Complete(c, ok) =>
      CompOwns(s, c);
      ReleaseOwes(s, c);
      AccountKeepsInv(Released(s, c), s.comps[c], !ok);
  }

  /** Nothing called, everything free. */
  ghost predicate Initial(s: State) {
    && s.reqs == [] && s.orig == [] && s.calls == []
    && |s.multiPool| == |s.multis|
    && (forall x: nat :: x < |s.multis| ==> s.multiPool[x] == x && s.multis[x].orig == -1)
    && |s.compPool| == |s.comps| && (forall c: nat :: c < |s.comps| ==> s.compPool[c] == c && s.comps[c] == -1)
  }

  lemma InitialInv(s: State)
    requires Initial(s)
    ensures Inv(s, -1)
  {
    forall x: nat | x < |s.multis|
      ensures MultiOk(s, x)
    {
      assert s.multiPool[x] == x;
    }
    forall c: nat | c < |s.comps|
      ensures CompOk(s, c)
    {
      assert s.compPool[c] == c;
    }
  }

  /** A whole run: any interleaving of calls, launches and completions; what cannot happen next is skipped. */
  ghost function AfterAll(s: State, events: seq<Event>): (t: State)
    requires Inv(s, -1)
    ensures Inv(t, -1)
  {
    if events == [] then s else
      var t := AfterAll(s, events[..|events| - 1]);
      var e := events[|events| - 1];
      if Enabled(t, e) then
        AfterKeepsInv(t, e);
        After(t, e)
      else t
  }

  // ---------------------------------------------------------------- what happened to the launches

  /** The fate of a launch of call `user`: posted, never posted, or completed. */
  datatype Outcome = Sent(user: nat) | Lost(user: nat) | Done(user: nat, ok: bool)

  ghost function Outcomes(s: State, e: Event): seq<Outcome>
    requires Inv(s, -1) && Enabled(s, e)
  {
    match e
    case Begin(_) => []
    case Launch(u, fault) => [if fault || s.compPool == [] then Lost(u) else Sent(u)]
    case Complete(c, ok) =>
      CompOwns(s, c);
      [Done(s.multis[s.comps[c]].orig, ok)]
  }

  /** The outcomes of a whole run, in order. */
  ghost function History(s: State, events: seq<Event>): seq<Outcome>
    requires Inv(s, -1)
  {
    if events == [] then [] else
      var t := AfterAll(s, events[..|events| - 1]);
      var e := events[|events| - 1];
      History(s, events[..|events| - 1]) + if Enabled(t, e) then Outcomes(t, e) else []
  }

  ghost function Sum(h: seq<Outcome>, o: Outcome): nat {
    multiset(h)[o]
  }

  /** How many launches of `u` are posted and not completed. */
  ghost function Outstanding(s: State, u: nat): nat
    requires u < |s.reqs| == |s.calls|
  {
    if s.calls[u] == [] then Live(s.comps, s.reqs[u].multi) else 0
  }

  /** What the state knows of call `u` is what the history says. */
  ghost predicate Agrees(s: State, h: seq<Outcome>, u: nat)
    requires |s.reqs| == |s.calls|
  {
    var done := Sum(h, Done(u, true)) + Sum(h, Done(u, false));
    if u < |s.reqs| then
      && s.reqs[u].launched == Sum(h, Sent(u)) + Sum(h, Lost(u))
      && s.reqs[u].fails == Sum(h, Lost(u)) + Sum(h, Done(u, false))
      && Sum(h, Sent(u)) == done + Outstanding(s, u)
    else
      Sum(h, Sent(u)) + Sum(h, Lost(u)) + done == 0
  }

  lemma BeginAgrees(s: State, total: nat, h: seq<Outcome>, u: nat)
    requires Inv(s, -1) && s.multiPool != [] && total > 0 && Agrees(s, h, u)
    ensures Agrees(Begun(s, total), h, u)
  {
    hide Live;
    var x := s.multiPool[0];
    forall c: nat | c < |s.comps|
      ensures s.comps[c] != x
    {
      assert CompOk(s, c);
      assert x in s.multiPool;
    }
    LiveNone(s.comps, x);
  }

  /** Calls that have not been answered do not share an object. */
  lemma OwnObject(s: State, u: nat, v: nat)
    requires Inv(s, -1) && u < |s.reqs| && v < |s.reqs| && u != v && s.calls[u] == [] && s.calls[v] == []
    ensures s.reqs[u].multi != s.reqs[v].multi
  {
    assert UserOk(s, u, -1) && UserOk(s, v, -1);
  }

  lemma SumMore(h: seq<Outcome>, o: Outcome, p: Outcome)
    ensures Sum(h + [o], p) == Sum(h, p) + if o == p then 1 else 0
  {
    assert multiset(h + [o]) == multiset(h) + multiset{o};
  }

  lemma SumsMore(h: seq<Outcome>, o: Outcome, u: nat)
    ensures Sum(h + [o], Sent(u)) == Sum(h, Sent(u)) + if o == Sent(u) then 1 else 0
    ensures Sum(h + [o], Lost(u)) == Sum(h, Lost(u)) + if o == Lost(u) then 1 else 0
    ensures Sum(h + [o], Done(u, true)) == Sum(h, Done(u, true)) + if o == Done(u, true) then 1 else 0
    ensures Sum(h + [o], Done(u, false)) == Sum(h, Done(u, false)) + if o == Done(u, false) then 1 else 0
  {
    SumMore(h, o, Sent(u));
    SumMore(h, o, Lost(u));
    SumMore(h, o, Done(u, true));
    SumMore(h, o, Done(u, false));
  }

  lemma PostAgrees(s: State, u: nat, h: seq<Outcome>, v: nat)
    requires Inv(s, -1) && Enabled(s, Launch(u, false)) && s.compPool != [] && Agrees(s, h, v)
    ensures Agrees(Posted(s, u), h + [Sent(u)], v)
  {
    hide Live, Sum;
    CallOwns(s, u);
    SumsMore(h, Sent(u), v);
    var c := s.compPool[0];
    assert CompOk(s, c);
    if v < |s.reqs| {
      LiveUpdate(s.comps, c, s.reqs[u].multi, s.reqs[v].multi);
      if v != u && s.calls[v] == [] {
        OwnObject(s, u, v);
        assert UserOk(s, v, -1);
      }
    }
  }

  lemma LoseAgrees(s: State, u: nat, h: seq<Outcome>, v: nat)
    requires Inv(s, -1) && Enabled(s, Launch(u, true)) && Agrees(s, h, v)
    requires var x := s.reqs[u].multi;
      x < |s.multis| && s.multis[x].orig == u && |s.reqs| == |s.orig| == |s.calls| && s.calls[u] == []
    ensures Agrees(Accounted(Attempted(s, u), s.reqs[u].multi, true), h + [Lost(u)], v)
  {
    hide Live, Sum;
    SumsMore(h, Lost(u), v);
    assert UserOk(s, u, -1);
  }

  lemma CompleteAgrees(s: State, c: nat, ok: bool, h: seq<Outcome>, v: nat)
    requires Inv(s, -1) && Enabled(s, Complete(c, ok)) && Agrees(s, h, v)
    requires var x := s.comps[c];
      && 0 <= x < |s.multis| && 0 <= s.multis[x].orig < |s.reqs| == |s.orig| == |s.calls|
      && s.calls[s.multis[x].orig] == []
    ensures Agrees(Accounted(Released(s, c), s.comps[c], !ok), h + [Done(s.multis[s.comps[c]].orig, ok)], v)
  {
    hide Live, Sum;
    var x := s.comps[c];
    var u := s.multis[x].orig;
    SumsMore(h, Done(u, ok), v);
    assert CompOk(s, c) && MultiOk(s, x) && UserOk(s, u, -1);
    if v < |s.reqs| {
      LiveUpdate(s.comps, c, -1, s.reqs[v].multi);
      if v != u && s.calls[v] == [] {
        OwnObject(s, u, v);
        assert UserOk(s, v, -1);
      }
    }
  }

  lemma StepAgrees(s: State, e: Event, h: seq<Outcome>, u: nat)
    requires Inv(s, -1) && Enabled(s, e) && Agrees(s, h, u)
    ensures |After(s, e).reqs| == |After(s, e).calls| && Agrees(After(s, e), h + Outcomes(s, e), u)
  {
    hide Inv, Agrees;
    AfterKeepsInv(s, e);
    InvLengths(After(s, e));
    match e
    case Begin(total) =>
      assert h + [] == h;
      if s.multiPool != [] { BeginAgrees(s, total, h, u); }
    case Launch(v, fault) =>
      CallOwns(s, v);
      if fault || s.compPool == [] {
        LoseAgrees(s, v, h, u);
      } else {
        PostAgrees(s, v, h, u);
      }
    case Complete(c, ok) =>
      CompOwns(s, c);
      CompleteAgrees(s, c, ok, h, u);
  }

  lemma InvLengths(s: State)
    requires Inv(s, -1)
    ensures |s.reqs| == |s.orig| == |s.calls|
  {
  }

  lemma {:induction false} RunAgrees(s: State, events: seq<Event>, u: nat)
    requires Initial(s) && Inv(s, -1)
    ensures |AfterAll(s, events).reqs| == |AfterAll(s, events).calls|
    ensures Agrees(AfterAll(s, events), History(s, events), u)
  {
    hide Inv, Agrees, Enabled, After, Outcomes;
    var n := |events| - 1;
    InvLengths(AfterAll(s, events));
    if events == [] {
      StartAgrees(s, u);
    } else {
      RunAgrees(s, events[..n], u);
      var t, h := AfterAll(s, events[..n]), History(s, events[..n]);
      assert h + [] == h;
      if Enabled(t, events[n]) { StepAgrees(t, events[n], h, u); }
    }
  }

  lemma StartAgrees(s: State, u: nat)
    requires Initial(s)
    ensures Agrees(s, [], u)
  {
  }

  // ---------------------------------------------------------------- what was asked for, and what is free

  /** How many calls wait for an answer. */
  ghost function Waiting(calls: seq<seq<Status>>): nat {
    if calls == [] then 0 else (if calls[|calls| - 1] == [] then 1 else 0) + Waiting(calls[..|calls| - 1])
  }

  lemma {:induction false} WaitingUpdate(calls: seq<seq<Status>>, u: nat, y: seq<Status>)
    requires u < |calls|
    ensures Waiting(calls[u := y]) == Waiting(calls) - (if calls[u] == [] then 1 else 0) + (if y == [] then 1 else 0)
  {
    var n := |calls| - 1;
    if u == n {
      assert calls[u := y][..n] == calls[..n];
    } else {
      WaitingUpdate(calls[..n], u, y);
      assert calls[u := y][..n] == calls[..n][u := y];
    }
  }

  /** No object is lost: those not in a pool serve a call that waits, or a launch that is posted. */
  ghost predicate Conserved(s: State) {
    |s.multiPool| + Waiting(s.calls) == |s.multis| && |s.compPool| == Live(s.comps, -1)
  }

  lemma AccountConserves(s: State, x: nat, failed: bool)
    requires x < |s.multis| && 0 <= s.multis[x].orig < |s.reqs| == |s.orig| == |s.calls|
    requires Conserved(s) && s.calls[s.multis[x].orig] == []
    ensures Conserved(Accounted(s, x, failed))
  {
    hide Live, Waiting;
    var u := s.multis[x].orig;
    WaitingUpdate(s.calls, u, s.calls[u] + [(if failed then s.orig[u := Fail] else s.orig)[u]]);
  }

  lemma StepConserves(s: State, e: Event)
    requires Inv(s, -1) && Enabled(s, e) && Conserved(s)
    ensures Conserved(After(s, e)) && |After(s, e).multis| == |s.multis| && |After(s, e).comps| == |s.comps|
  {
    hide Live;
    match e
    case Begin(total) =>
      assert (s.calls + [[]])[..|s.calls|] == s.calls;
    case Launch(u, fault) =>
      CallOwns(s, u);
      if fault || s.compPool == [] {
        AccountConserves(Attempted(s, u), s.reqs[u].multi, true);
      } else {
        assert CompOk(s, s.compPool[0]);
        LiveUpdate(s.comps, s.compPool[0], s.reqs[u].multi, -1);
      }
    case Complete(c, ok) =>
      CompOwns(s, c);
      LiveUpdate(s.comps, c, -1, -1);
      AccountConserves(Released(s, c), s.comps[c], !ok);
  }

  lemma {:induction false} StartConserves(comps: seq<int>)
    requires forall c :: 0 <= c < |comps| ==> comps[c] == -1
    ensures Live(comps, -1) == |comps|
  {
    if comps != [] {
      StartConserves(comps[..|comps| - 1]);
    }
  }

  lemma {:induction false} RunConserves(s: State, events: seq<Event>)
    requires Initial(s) && Inv(s, -1)
    ensures var t := AfterAll(s, events); Conserved(t) && |t.multis| == |s.multis| && |t.comps| == |s.comps|
  {
    if events == [] {
      StartConserves(s.comps);
    } else {
      hide Inv, Conserved, Enabled, After;
      RunConserves(s, events[..|events| - 1]);
      var t := AfterAll(s, events[..|events| - 1]);
      if Enabled(t, events[|events| - 1]) { StepConserves(t, events[|events| - 1]); }
    }
  }

  /** How many launches each call asked for, of the calls that were not refused: a call is refused if as many wait
      for an answer as there are objects. */
  ghost function Asked(s: State, events: seq<Event>): seq<nat>
    requires Inv(s, -1)
  {
    if events == [] then [] else
      var n := |events| - 1;
      var e := events[n];
      Asked(s, events[..n]) +
      if e.Begin? && e.total > 0 && Waiting(AfterAll(s, events[..n]).calls) < |s.multis| then [e.total] else []
  }

  /** The calls known are those that asked. */
  ghost predicate Totals(reqs: seq<Req>, asked: seq<nat>) {
    |reqs| == |asked| && forall u :: 0 <= u < |reqs| ==> reqs[u].total == asked[u]
  }

  lemma StepTotals(s: State, e: Event, asked: seq<nat>)
    requires Inv(s, -1) && Enabled(s, e) && Totals(s.reqs, asked)
    ensures Totals(After(s, e).reqs, asked + if e.Begin? && s.multiPool != [] then [e.total] else [])
  {
    hide Live;
    match e
    case Begin(_) =>
    case Launch(u, _) => CallOwns(s, u);
    case Complete(c, _) => CompOwns(s, c);
  }

  lemma {:induction false} RunTotals(s: State, events: seq<Event>)
    requires Initial(s) && Inv(s, -1)
    ensures Totals(AfterAll(s, events).reqs, Asked(s, events))
  {
    if events != [] {
      hide Inv, After, Waiting, Live, Totals;
      var n := |events| - 1;
      RunTotals(s, events[..n]);
      RunConserves(s, events[..n]);
      var t, asked := AfterAll(s, events[..n]), Asked(s, events[..n]);
      assert asked + [] == asked;
      if Enabled(t, events[n]) { StepTotals(t, events[n], asked); }
    }
  }

  /** In every run from the start, of any calls, launches and completions: a call is answered at most once; it has been
      answered exactly when as many launches were tried as it asked for and all those that were posted have completed;
      and the answer is failure exactly when one of them could not be posted or completed badly. */
  lemma AnsweredInEveryRun(s: State, events: seq<Event>, u: nat)
    requires Initial(s) && Inv(s, -1) && u < |Asked(s, events)|
    ensures var t, h, total := AfterAll(s, events), History(s, events), Asked(s, events)[u];
      var sent, lost := Sum(h, Sent(u)), Sum(h, Lost(u));
      var good, bad := Sum(h, Done(u, true)), Sum(h, Done(u, false));
      && |t.calls| == |Asked(s, events)| && sent + lost <= total && good + bad <= sent
      && (t.calls[u] != [] <==> sent + lost == total && good + bad == sent)
      && (t.calls[u] != [] ==> t.calls[u] == [if lost + bad > 0 then Fail else Success])
  {
    hide Live, Sum, History, AfterAll, Asked;
    RunTotals(s, events);
    RunAgrees(s, events, u);
    var t := AfterAll(s, events);
    AnsweredOnce(t, u);
    assert UserOk(t, u, -1);
  }

  /** An answer is never followed by another. */
  lemma AfterLater(s: State, e: Event)
    requires Inv(s, -1) && Enabled(s, e)
    ensures Later(s.calls, After(s, e).calls)
  {
    hide Live;
    match e
    case Begin(_) =>
    case Launch(u, _) => CallOwns(s, u);
    case Complete(c, _) => CompOwns(s, c);
  }

  /** Answers already given are all there is for their calls. */
  ghost predicate Later(calls: seq<seq<Status>>, calls': seq<seq<Status>>) {
    |calls| <= |calls'| && forall u :: 0 <= u < |calls| && calls[u] != [] ==> calls'[u] == calls[u]
  }

  class Calc {
    var multis: seq<Multi>
    var multiPool: seq<nat>
    var comps: seq<int>
    var compPool: seq<nat>
    var orig: seq<Status>
    var calls: seq<seq<Status>>
    var reqs: seq<Req>    // what the callers know: how far their loops have got

    function St(): State
      reads this
    {
      State(multis, multiPool, comps, compPool, orig, calls, reqs)
    }

    constructor (numMultis: nat, numComps: nat)
      ensures Initial(St()) && Inv(St(), -1) && |multis| == numMultis && |comps| == numComps
    {
      multis, multiPool := seq(numMultis, _ => Multi(-1, 0)), seq(numMultis, i => i);
      comps, compPool := seq(numComps, _ => -1), seq(numComps, i => i);
      orig, calls, reqs := [], [], [];
      new;
      InitialInv(St());
    }

    /** Takes a multi-completion object for a call; without one the call is refused and never called back. */
    method GetMultiComp(total: nat) returns (user: int)
      requires Inv(St(), -1) && total > 0
      modifies this
      ensures Inv(St(), -1)
      ensures old(multiPool) == [] ==> user == -1 && St() == old(St())
      ensures old(multiPool) != [] ==> user == old(|reqs|) && St() == Begun(old(St()), total)
      ensures user != -1 ==> 0 <= user < |reqs| && reqs[user].total == total && calls[user] == []
      ensures user != -1 ==> reqs[user].multi < |multis| && multis[reqs[user].multi] == Multi(user, total)
    {
      if multiPool == [] { return -1; }
      BeginKeepsInv(St(), total);
      var x := multiPool[0];
      multiPool := multiPool[1..];
      user := |orig|;
      multis := multis[x := Multi(user, total)];
      orig, calls := orig + [Success], calls + [[]];
      reqs := reqs + [Req(x, total, 0, 0)];
    }

    /** Remembers a failure, counts down, and on zero returns the object to its pool and calls the caller back. */
    method SetStatusCheckDone(x: nat, failed: bool)
      requires Inv(St(), x) && x < |multis| && x !in multiPool
      modifies this
      ensures 0 <= old(multis[x].orig) < old(|reqs|) && old(|reqs| == |orig| == |calls|)
      ensures St() == Accounted(old(St()), x, failed) && Inv(St(), -1)
    {
      AccountKeepsInv(St(), x, failed);
      assert MultiOk(St(), x) && UserOk(St(), multis[x].orig, x);
      var u := multis[x].orig;
      if failed && orig[u] == Success {
        orig := orig[u := Fail];
      }
      reqs := reqs[u := reqs[u].(fails := reqs[u].fails + if failed then 1 else 0)];
      multis := multis[x := multis[x].(counter := multis[x].counter - 1)];
      if multis[x].counter == 0 {
        multis := multis[x := Multi(-1, 0)];
        multiPool := [x] + multiPool;
        calls := calls[u := calls[u] + [orig[u]]];
      }
    }

    /** The next launch of call `u`, whose object is `x`: it is posted, or accounted for as failed. */
    method LaunchNext(u: nat, x: nat, fault: bool) returns (err: bool)
      requires Inv(St(), -1) && u < |reqs| && reqs[u].launched < reqs[u].total && reqs[u].multi == x
      modifies this
      ensures Inv(St(), -1) && err == (fault || old(compPool) == [])
      ensures !err ==> St() == Posted(old(St()), u)
      ensures x < old(|multis|) && old(multis[x].orig) == u && old(|reqs| == |orig| == |calls|)
      ensures err ==> St() == Accounted(Attempted(old(St()), u), x, true)
    {
      assert UserOk(St(), u, -1);
      err := fault || compPool == [];
      if err {
        AttemptOwes(St(), u);
        reqs := reqs[u := reqs[u].(launched := reqs[u].launched + 1)];
        SetStatusCheckDone(x, true);
      } else {
        PostKeepsInv(St(), u);
        var c := compPool[0];
        compPool := compPool[1..];
        comps := comps[c := x];
        reqs := reqs[u := reqs[u].(launched := reqs[u].launched + 1)];
      }
    }

    /** The receive of launch object `c` completes: the object is free again and its launch accounted for. */
    method HandleEcComp(c: nat, ok: bool)
      requires Inv(St(), -1) && c < |comps| && c !in compPool
      modifies this
      ensures Inv(St(), -1) && 0 <= old(comps[c]) < old(|multis|)
      ensures 0 <= old(multis[comps[c]].orig) < old(|reqs|) && old(|reqs| == |orig| == |calls|)
      ensures St() == Accounted(Released(old(St()), c), old(comps[c]), !ok)
    {
      assert CompOk(St(), c);
      ReleaseOwes(St(), c);
      var x := comps[c];
      compPool := [c] + compPool;
      comps := comps[c := -1];
      SetStatusCheckDone(x, !ok);
    }

    /** One event, carried out as the driver does. */
    method Step(e: Event)
      requires Inv(St(), -1) && Enabled(St(), e)
      modifies this
      ensures St() == After(old(St()), e) && Inv(St(), -1)
    {
      hide Inv;
      match e
      case Begin(total) => var user := GetMultiComp(total);
      case Launch(u, fault) =>
        CallOwns(St(), u);
        var err := LaunchNext(u, reqs[u].multi, fault);
      case Complete(c, ok) =>
        CompOwns(St(), c);
        HandleEcComp(c, ok);
    }

    /** Any interleaving of calls, launches and completions; what cannot happen next is skipped. */
    method Run(events: seq<Event>)
      requires Inv(St(), -1)
      modifies this
      ensures Inv(St(), -1) && St() == AfterAll(old(St()), events) && Later(old(calls), calls)
    {
      hide Inv, After, Enabled;
      ghost var s := St();
      assert events[..0] == [];
      for i := 0 to |events|
        invariant Inv(St(), -1) && St() == AfterAll(s, events[..i]) && Later(old(calls), calls)
      {
        assert events[..i + 1][..i] == events[..i];
        if Enabled(St(), events[i]) {
          AfterLater(St(), events[i]);
          Step(events[i]);
        }
      }
      assert events[..|events|] == events;
    }
  }
}
