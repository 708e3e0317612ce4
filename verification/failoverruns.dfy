/** Every run of a mount: joins, leaves and packets in any order, with the admin
    registry that is kept beside it. */
module FailoverRuns {
  import opened Text
  import opened Failover

  datatype Event<C(==)> = Join(c: C) | Leave(c: C) | Packet(c: C, data: string)

  /** The mount, its registry entry (None when the key is absent), and the
      history: clients ever seen, accepted ones in order of arrival, clients
      that went live, packets handed to HandleData. */
  datatype Sys<C(==)> = Sys(
    view: MountView<C>, entry: Option<seq<C>>,
    known: set<C>, arrivals: seq<C>, lives: seq<C>, forwarded: seq<(C, string)>)

  // ---------------------------------------------------------------------
  // handlers.go
  // ---------------------------------------------------------------------

  function Connected<C(==)>(e: Option<seq<C>>, c: C): (r: Option<seq<C>>)
  {
    Some((if e.Some? then e.value else []) + [c])
  }

  /** HandleClientLive moves the client to the front. */
  function WentLive<C(==)>(e: Option<seq<C>>, c: C): (r: Option<seq<C>>)
  {
    if e.Some? && c in e.value then Some([c] + Without(e.value, c)) else e
  }

  function Disconnected<C(==)>(e: Option<seq<C>>, c: C): (r: Option<seq<C>>)
  {
    if e.None? || Without(e.value, c) == [] then None else Some(Without(e.value, c))
  }

  // ---------------------------------------------------------------------
  // The event loop, for one mount
  // ---------------------------------------------------------------------

  /** The first client creates the mount and is live at once. */
  function Start<C(==)>(c: C): (s: Sys<C>)
  {
    Sys(Created(c), Connected(None, c), {c}, [c], [c], [])
  }

  /** A client joins at most once and leaves only while connected. Packets may
      still arrive from anybody, even from a client that has left. */
  predicate Enabled<C(==)>(s: Sys<C>, e: Event<C>)
  {
    match e
    case Join(c) => c !in s.known
    case Leave(c) => c in s.view.members
    case Packet(_, _) => true
  }

  function Step<C(==)>(s: Sys<C>, e: Event<C>): (t: Sys<C>)
  {
    match e
    case Join(c) =>
      if Accepts(s.view) then
        s.(view := Joined(s.view, c), entry := Connected(s.entry, c), known := s.known + {c}, arrivals := s.arrivals + [c])
      else s.(entry := Disconnected(s.entry, c), known := s.known + {c})
    case Leave(c) =>
      var v := Left(s.view, c);
      if v.active != s.view.active && v.active.Some? then
        s.(view := v, entry := Disconnected(WentLive(s.entry, v.active.value), c), lives := s.lives + [v.active.value])
      else s.(view := v, entry := Disconnected(s.entry, c))
    case Packet(c, data) =>
      if s.view.active == Some(c) then s.(forwarded := s.forwarded + [(c, data)]) else s
  }

  predicate ValidRun<C(==)>(s: Sys<C>, es: seq<Event<C>>)
    decreases |es|
  {
    es == [] || (Enabled(s, es[0]) && ValidRun(Step(s, es[0]), es[1..]))
  }

  function Run<C(==)>(s: Sys<C>, es: seq<Event<C>>): (t: Sys<C>)
    decreases |es|
  {
    if es == [] then s else Run(Step(s, es[0]), es[1..])
  }

  // ---------------------------------------------------------------------
  // Order of arrival
  // ---------------------------------------------------------------------

  function Pos<C(==)>(a: seq<C>, c: C): (p: nat)
    ensures c in a <==> p < |a|
    ensures p <= |a|
  {
    if a == [] then 0 else if a[0] == c then 0 else 1 + Pos(a[1..], c)
  }

  lemma {:induction false} PosAppend<C>(a: seq<C>, d: C, c: C)
    ensures c in a ==> Pos(a + [d], c) == Pos(a, c)
    ensures c !in a && c == d ==> Pos(a + [d], c) == |a|
  {
    if a == [] {
      assert a + [d] == [d];
    } else {
      PosAppend(a[1..], d, c);
      assert (a + [d])[1..] == a[1..] + [d];
    }
  }

  /** `s` lists some of `a`, in the order of `a`, without repeats. */
  predicate Ascending<C(==)>(s: seq<C>, a: seq<C>)
  {
    && (forall i :: 0 <= i < |s| ==> s[i] in a)
    && (forall i, j :: 0 <= i < j < |s| ==> Pos(a, s[i]) < Pos(a, s[j]))
  }

  lemma AscendingMore<C>(s: seq<C>, a: seq<C>, c: C)
    requires Ascending(s, a) && c !in a
    ensures Ascending(s + [c], a + [c])
  {
    forall i | 0 <= i < |s| ensures Pos(a + [c], s[i]) == Pos(a, s[i]) {
      PosAppend(a, c, s[i]);
    }
    PosAppend(a, c, c);
  }

  lemma AscendingDrop<C>(s: seq<C>, q: seq<C>, a: seq<C>)
    requires q != [] && Ascending(s + q, a)
    ensures Ascending(s + q[1..], a)
  {
    var t, u := s + q, s + q[1..];
    assert forall i :: 0 <= i < |u| ==> u[i] == t[if i < |s| then i else i + 1];
  }

  // ---------------------------------------------------------------------
  // What holds in every run
  // ---------------------------------------------------------------------

  function EntryOf<C(==)>(s: Stage<C>): (e: Option<seq<C>>)
  {
    if Everybody(s) == [] then None else Some(Everybody(s))
  }

  predicate Tidy<C(==)>(s: Sys<C>)
  {
    && Inv(s.view)
    && (forall c :: c in s.view.members ==> c in s.known)
    && (forall c :: c in s.arrivals ==> c in s.known)
    && s.entry == EntryOf(StageOf(s.view))
  }

  predicate Ordered<C(==)>(s: Sys<C>)
  {
    && s.lives != [] && s.view.active == Some(s.lives[|s.lives| - 1])
    && Ascending(s.lives + s.view.queue, s.arrivals)
  }

  /** Packets come from clients that were live, in the order they went live. */
  predicate InBlocks<C(==)>(s: Sys<C>)
  {
    && (forall i :: 0 <= i < |s.forwarded| ==> s.forwarded[i].0 in s.lives)
    && (forall i, j :: 0 <= i <= j < |s.forwarded| ==>
          Pos(s.arrivals, s.forwarded[i].0) <= Pos(s.arrivals, s.forwarded[j].0))
  }

  predicate SysInv<C(==)>(s: Sys<C>)
  {
    Tidy(s) && Ordered(s) && InBlocks(s)
  }

  lemma StartInv<C>(c: C)
    ensures SysInv(Start(c))
  {
    var s := Start(c);
    assert StageOf(s.view) == Stage(Some(c), []);
    assert Everybody(StageOf(s.view)) == [c] && [] + [c] == [c];
    assert s.lives + s.view.queue == [c];
  }

  /** Someone active or queued was accepted once, so a newcomer is neither. */
  lemma NewcomerIsUnknown<C>(s: Sys<C>, c: C)
    requires Tidy(s) && Ordered(s) && c !in s.known
    ensures Unknown(s.view, c) && c !in s.arrivals && c !in s.lives
  {
    var t := s.lives + s.view.queue;
    assert forall i :: 0 <= i < |s.lives| ==> t[i] == s.lives[i];
    assert forall i :: 0 <= i < |s.view.queue| ==> t[|s.lives| + i] == s.view.queue[i];
  }

  lemma JoinTidy<C>(s: Sys<C>, c: C)
    requires Tidy(s) && Unknown(s.view, c)
    ensures Tidy(Step(s, Join(c)))
  {
    JoinRefines(s.view, c);
    var e := Everybody(StageOf(s.view));
    if Accepts(s.view) {
      assert Everybody(StageJoin(StageOf(s.view), c)) == e + [c];
    } else {
      WaitingIsTheRest(s.view);
      WithoutAbsent(e, c);
    }
  }

  lemma {:induction false} WithoutAbsent<C>(s: seq<C>, c: C)
    requires c !in s
    ensures Without(s, c) == s
  {
    if s != [] {
      WithoutAbsent(s[1..], c);
      assert s == [s[0]] + s[1..];
    }
  }

  lemma {:induction false} WithoutSecond<C>(x: C, s: seq<C>, c: C)
    ensures Without([x] + s, c) == if x == c then s else [x] + Without(s, c)
  {
    assert ([x] + s)[1..] == s;
  }

  /** The live client goes: the next one moves to the front of the list, and the
      leaver is dropped. */
  lemma LiveLeaves<C>(c: C, w: seq<C>)
    requires c !in w
    ensures w != [] ==> Disconnected(WentLive(Some([c] + w), w[0]), c) == Some(w)
    ensures w == [] ==> Disconnected(Some([c] + w), c) == None
  {
    WithoutSecond(c, w, c);
    if w != [] {
      var n, rest := w[0], w[1..];
      Cons(w);
      WithoutSecond(c, w, n);
      WithoutSecond(n, rest, n);
      WithoutSecond(n, [c] + rest, c);
      WithoutSecond(c, rest, c);
    }
  }

  /** Another client goes. */
  lemma OtherLeaves<C>(g: Stage<C>, c: C)
    requires g.live != Some(c)
    ensures Disconnected(EntryOf(g), c) == EntryOf(g.(waiting := Without(g.waiting, c)))
  {
    var w := Without(g.waiting, c);
    if g.live.Some? {
      WithoutSecond(g.live.value, g.waiting, c);
      assert Everybody(g) == [g.live.value] + g.waiting;
      assert Everybody(g.(waiting := w)) == [g.live.value] + w;
    } else {
      assert Everybody(g) == g.waiting && Everybody(g.(waiting := w)) == w;
    }
  }

  /** The registry follows the stage. */
  lemma LeaveEntry<C>(s: Sys<C>, c: C)
    requires Tidy(s) && c in s.view.members
    ensures Step(s, Leave(c)).entry == EntryOf(StageLeave(StageOf(s.view), c))
  {
    var g := StageOf(s.view);
    WaitingIsTheRest(s.view);
    PromotedStage(s.view);
    if g.live == Some(c) {
      LiveLeaves(c, g.waiting);
      assert Everybody(g) == [c] + g.waiting;
      if g.waiting != [] {
        Cons(g.waiting);
      }
    } else {
      OtherLeaves(g, c);
    }
  }

  lemma LeaveTidy<C>(s: Sys<C>, c: C)
    requires Tidy(s) && c in s.view.members
    ensures Tidy(Step(s, Leave(c)))
  {
    LeaveRefines(s.view, c);
    LeaveEntry(s, c);
  }

  lemma JoinOrdered<C>(s: Sys<C>, c: C)
    requires SysInv(s) && c !in s.known
    ensures Ordered(Step(s, Join(c))) && InBlocks(Step(s, Join(c)))
  {
    NewcomerIsUnknown(s, c);
    var t := s.lives + s.view.queue;
    if Accepts(s.view) {
      AscendingMore(t, s.arrivals, c);
      assert t + [c] == s.lives + (s.view.queue + [c]);
      forall i | 0 <= i < |s.forwarded|
        ensures Pos(s.arrivals + [c], s.forwarded[i].0) == Pos(s.arrivals, s.forwarded[i].0)
      {
        var k :| 0 <= k < |s.lives| && s.lives[k] == s.forwarded[i].0;
        assert t[k] == s.lives[k];
        PosAppend(s.arrivals, c, s.forwarded[i].0);
      }
    }
  }

  /** The clients that go live follow each other in order of arrival. */
  lemma {:induction false} PromotedOrdered<C>(v: MountView<C>, lives: seq<C>, a: seq<C>)
    requires v.active.Some? && v.active.value !in v.queue && Ascending(lives + v.queue, a)
    ensures var w := Promoted(v);
            Ascending((if w.active == v.active then lives else lives + [w.active.value]) + w.queue, a)
    decreases |v.queue|
  {
    if v.queue != [] {
      if v.queue[0] in v.members {
        assert lives + v.queue == (lives + [v.queue[0]]) + v.queue[1..];
      } else {
        AscendingDrop(lives, v.queue, a);
        PromotedOrdered(v.(queue := v.queue[1..]), lives, a);
      }
    }
  }

  lemma LeaveOrdered<C>(s: Sys<C>, c: C)
    requires SysInv(s) && c in s.view.members
    ensures Ordered(Step(s, Leave(c))) && InBlocks(Step(s, Leave(c)))
  {
    PromotedStage(s.view);
    PromotedOrdered(s.view, s.lives, s.arrivals);
  }

  lemma PacketOrdered<C>(s: Sys<C>, c: C, data: string)
    requires SysInv(s)
    ensures SysInv(Step(s, Packet(c, data)))
  {
    var n := |s.lives|;
    var t := s.lives + s.view.queue;
    if s.view.active == Some(c) {
      assert t[n - 1] == s.lives[n - 1] == c;
      forall i | 0 <= i < |s.forwarded|
        ensures Pos(s.arrivals, s.forwarded[i].0) <= Pos(s.arrivals, c)
      {
        var k :| 0 <= k < n && s.lives[k] == s.forwarded[i].0;
        assert t[k] == s.lives[k];
      }
    }
  }

  lemma StepInv<C>(s: Sys<C>, e: Event<C>)
    requires SysInv(s) && Enabled(s, e)
    ensures SysInv(Step(s, e))
  {
    match e
    case Join(c) =>
      NewcomerIsUnknown(s, c);
      JoinTidy(s, c);
      JoinOrdered(s, c);
    case Leave(c) =>
      LeaveTidy(s, c);
      LeaveOrdered(s, c);
    case Packet(c, data) =>
      PacketOrdered(s, c, data);
  }

  lemma {:induction false} RunFrom<C>(s: Sys<C>, es: seq<Event<C>>)
    requires SysInv(s) && ValidRun(s, es)
    ensures SysInv(Run(s, es))
    decreases |es|
  {
    if es != [] {
      StepInv(s, es[0]);
      RunFrom(Step(s, es[0]), es[1..]);
    }
  }

  /** Every run. The waiting list is exactly the connected clients that are not
      live, each once; the registry entry is the live client followed by the
      waiting list, absent exactly when nobody is connected; the queue stays
      within its limit. */
  lemma EveryRunIsTidy<C>(first: C, es: seq<Event<C>>)
    requires ValidRun(Start(first), es)
    ensures var s := Run(Start(first), es); var g := StageOf(s.view);
            && (forall c :: c in g.waiting <==> c in s.view.members && g.live != Some(c))
            && Distinct(g.waiting) && Ascending(Everybody(g), s.arrivals)
            && s.entry == EntryOf(g)
            && (s.entry.None? <==> s.view.members == {})
            && |s.view.queue| <= QUEUE_LIMIT && |s.view.members| <= QUEUE_LIMIT + 1
  {
    StartInv(first);
    RunFrom(Start(first), es);
    var s := Run(Start(first), es);
    WaitingIsTheRest(s.view);
    EverybodyAscending(s);
    MembersBounded(s.view);
    EmptyMeansNobody(s.view);
  }

  lemma EmptyMeansNobody<C>(v: MountView<C>)
    requires Inv(v)
    ensures Everybody(StageOf(v)) == [] <==> v.members == {}
  {
    var g := StageOf(v);
    WaitingIsTheRest(v);
    if v.members != {} {
      var c :| c in v.members;
      assert g.live == Some(c) || c in g.waiting;
    }
    assert g.waiting != [] ==> g.waiting[0] in v.members;
  }

  lemma {:induction false} PresentAscending<C>(s: seq<C>, m: set<C>, lead: seq<C>, a: seq<C>)
    requires Ascending(lead + s, a)
    ensures Ascending(lead + Present(s, m), a)
    decreases |s|
  {
    if s != [] {
      if s[0] in m {
        Cons(s);
        Assoc(lead, [s[0]], s[1..]);
        PresentAscending(s[1..], m, lead + [s[0]], a);
        Assoc(lead, [s[0]], Present(s[1..], m));
      } else {
        AscendingDrop(lead, s, a);
        PresentAscending(s[1..], m, lead, a);
      }
    }
  }

  lemma EverybodyAscending<C>(s: Sys<C>)
    requires Ordered(s)
    ensures Ascending(Everybody(StageOf(s.view)), s.arrivals)
  {
    var n := |s.lives|;
    var g := StageOf(s.view);
    PresentAscending(s.view.queue, s.view.members, s.lives, s.arrivals);
    var t := s.lives + g.waiting;
    var e := Everybody(g);
    assert forall i :: 0 <= i < |e| ==> e[i] == t[|t| - |e| + i];
  }

  lemma MembersBounded<C>(v: MountView<C>)
    requires Inv(v)
    ensures |v.members| <= QUEUE_LIMIT + 1
  {
    var q := set c | c in v.queue;
    SetOfSeq(v.queue);
    assert v.members <= q + {v.active.value};
    SubsetSize(v.members, q + {v.active.value});
  }

  lemma {:induction false} SetOfSeq<C>(s: seq<C>)
    ensures |set c | c in s| <= |s|
  {
    if s != [] {
      SetOfSeq(s[1..]);
      assert (set c | c in s) == {s[0]} + (set c | c in s[1..]);
    }
  }

  lemma {:induction false} SubsetSize<C>(a: set<C>, b: set<C>)
    requires a <= b
    ensures |a| <= |b|
    decreases |a|
  {
    if a != {} {
      var x :| x in a;
      SubsetSize(a - {x}, b - {x});
    }
  }

  /** Every run. The clients that were live, in the order they went live, are in
      order of arrival without repeats; the packets forwarded form one block per
      client in that same order, so nobody speaks again after a handover. */
  lemma EveryRunIsOrdered<C>(first: C, es: seq<Event<C>>)
    requires ValidRun(Start(first), es)
    ensures var s := Run(Start(first), es);
            && Ascending(s.lives, s.arrivals)
            && (forall i :: 0 <= i < |s.forwarded| ==> s.forwarded[i].0 in s.lives)
            && (forall i, j, k :: 0 <= i < j < k < |s.forwarded| && s.forwarded[i].0 == s.forwarded[k].0 ==>
                  s.forwarded[j].0 == s.forwarded[i].0)
            && (forall i, j :: 0 <= i < j < |s.forwarded| ==>
                  Pos(s.arrivals, s.forwarded[i].0) <= Pos(s.arrivals, s.forwarded[j].0))
  {
    StartInv(first);
    RunFrom(Start(first), es);
    var s := Run(Start(first), es);
    var t := s.lives + s.view.queue;
    assert forall i :: 0 <= i < |s.lives| ==> s.lives[i] == t[i];
    forall i, j, k | 0 <= i < j < k < |s.forwarded| && s.forwarded[i].0 == s.forwarded[k].0
      ensures s.forwarded[j].0 == s.forwarded[i].0
    {
      PosInjective(s.arrivals, s.forwarded[i].0, s.forwarded[j].0);
    }
  }

  lemma {:induction false} PosInjective<C>(a: seq<C>, c: C, d: C)
    ensures c in a && Pos(a, c) == Pos(a, d) ==> c == d
  {
    if a != [] {
      PosInjective(a[1..], c, d);
    }
  }

  // ---------------------------------------------------------------------
  // Where the code falls short of its intent
  // ---------------------------------------------------------------------

  /** At some point the live client left and nobody was waiting. */
  predicate Deserted<C(==)>(s: Sys<C>, es: seq<Event<C>>)
    decreases |es|
  {
    es != [] &&
    ((es[0].Leave? && StageOf(s.view).live == Some(es[0].c) && StageOf(s.view).waiting == [])
     || Deserted(Step(s, es[0]), es[1..]))
  }

  lemma {:induction false} NobodyLiveIff<C>(s: Sys<C>, es: seq<Event<C>>)
    requires SysInv(s) && ValidRun(s, es)
    ensures StageOf(Run(s, es).view).live.None? <==> StageOf(s.view).live.None? || Deserted(s, es)
    decreases |es|
  {
    if es != [] {
      var e := es[0];
      StepInv(s, e);
      NobodyLiveIff(Step(s, e), es[1..]);
      match e
      case Join(c) =>
        NewcomerIsUnknown(s, c);
        JoinRefines(s.view, c);
      case Leave(c) =>
        LeaveRefines(s.view, c);
      case Packet(_, _) =>
    }
  }

  /** A mount has a live client exactly as long as its live client never left an
      empty waiting list behind: later clients are queued and never go live. */
  lemma LiveUnlessDeserted<C>(first: C, es: seq<Event<C>>)
    requires ValidRun(Start(first), es)
    ensures StageOf(Run(Start(first), es).view).live.Some? <==> !Deserted(Start(first), es)
  {
    StartInv(first);
    NobodyLiveIff(Start(first), es);
  }

  /** HandleClientDisconnect returns without unlocking when the mount has no
      registry entry. In a run that is so exactly when a client is refused, its
      queue being full of clients that left, while nobody is connected. */
  predicate LeaksLock<C(==)>(s: Sys<C>, e: Event<C>)
  {
    match e
    case Join(_) => !Accepts(s.view) && s.entry.None?
    case Leave(c) => s.entry.None?
    case Packet(_, _) => false
  }

  lemma LockLeaksIff<C>(first: C, es: seq<Event<C>>, e: Event<C>)
    requires ValidRun(Start(first), es) && Enabled(Run(Start(first), es), e)
    ensures var s := Run(Start(first), es);
            LeaksLock(s, e) <==> e.Join? && |s.view.queue| == QUEUE_LIMIT && s.view.members == {}
  {
    EveryRunIsTidy(first, es);
  }

  function ComeAndGo<C(==)>(cs: seq<C>): (es: seq<Event<C>>)
  {
    if cs == [] then [] else [Join(cs[0]), Leave(cs[0])] + ComeAndGo(cs[1..])
  }

  lemma OneComesAndGoes<C>(s: Sys<C>, c: C)
    requires SysInv(s) && s.view.members == {} && |s.view.queue| < QUEUE_LIMIT && c !in s.known
    ensures var t := Step(s, Join(c)); var u := Step(t, Leave(c));
            && SysInv(u) && Enabled(s, Join(c)) && Enabled(t, Leave(c))
            && u.view == s.view.(queue := s.view.queue + [c]) && u.known == s.known + {c}
  {
    var t := Step(s, Join(c));
    NewcomerIsUnknown(s, c);
    StepInv(s, Join(c));
    StepInv(t, Leave(c));
    assert t.view.members == {c} && t.view.members - {c} == {};
  }

  lemma ComeAndGoFirst<C>(s: Sys<C>, cs: seq<C>)
    requires cs != []
    ensures var es := ComeAndGo(cs); var t := Step(s, Join(cs[0])); var u := Step(t, Leave(cs[0]));
            && Run(s, es) == Run(u, ComeAndGo(cs[1..]))
            && (ValidRun(s, es) <==> Enabled(s, Join(cs[0])) && Enabled(t, Leave(cs[0])) && ValidRun(u, ComeAndGo(cs[1..])))
  {
    var es := ComeAndGo(cs);
    var t := Step(s, Join(cs[0]));
    assert es[0] == Join(cs[0]) && es[1..][0] == Leave(cs[0]) && es[1..][1..] == ComeAndGo(cs[1..]);
    assert Run(s, es) == Run(t, es[1..]);
    assert ValidRun(s, es) <==> Enabled(s, Join(cs[0])) && ValidRun(t, es[1..]);
  }

  /** On a deserted mount, clients that come and go fill the queue for good. */
  lemma {:induction false} QueueOfTheDeparted<C>(s: Sys<C>, cs: seq<C>)
    requires SysInv(s) && s.view.members == {} && |s.view.queue| + |cs| <= QUEUE_LIMIT
    requires Distinct(cs) && forall c :: c in cs ==> c !in s.known
    ensures ValidRun(s, ComeAndGo(cs))
    ensures Run(s, ComeAndGo(cs)).view == s.view.(queue := s.view.queue + cs)
    ensures Run(s, ComeAndGo(cs)).known == s.known + set c | c in cs
    decreases |cs|
  {
    if cs == [] {
      assert s.view.queue + cs == s.view.queue;
    } else {
      var u := Step(Step(s, Join(cs[0])), Leave(cs[0]));
      OneComesAndGoes(s, cs[0]);
      ComeAndGoFirst(s, cs);
      QueueOfTheDeparted(u, cs[1..]);
      assert (set c | c in cs) == {cs[0]} + set c | c in cs[1..];
      Assoc(s.view.queue, [cs[0]], cs[1..]);
      Cons(cs);
    }
  }

  lemma FirstGone<C>(first: C)
    ensures var s := Step(Start(first), Leave(first));
            SysInv(s) && s.view == MountView(Some(first), [], {}) && s.known == {first}
  {
    StartInv(first);
    StepInv(Start(first), Leave(first));
  }

  /** A full queue and nobody there: whoever comes next leaves the lock held. */
  lemma FullAndEmpty<C>(s: Sys<C>, last: C)
    requires SysInv(s) && |s.view.queue| == QUEUE_LIMIT && s.view.members == {}
    ensures LeaksLock(s, Join(last))
  {
    EmptyMeansNobody(s.view);
  }

  /** The leak does happen: the first client leaves, a hundred others come and
      go, and the next one is refused by a mount nobody is connected to. */
  lemma LockLeakReached<C>(first: C, cs: seq<C>, last: C)
    requires |cs| == QUEUE_LIMIT && Distinct(cs) && first !in cs && last !in cs && last != first
    ensures var s := Run(Step(Start(first), Leave(first)), ComeAndGo(cs));
            && ValidRun(Step(Start(first), Leave(first)), ComeAndGo(cs))
            && Enabled(s, Join(last)) && LeaksLock(s, Join(last))
  {
    var s := Step(Start(first), Leave(first));
    FirstGone(first);
    QueueOfTheDeparted(s, cs);
    assert [] + cs == cs;
    RunFrom(s, ComeAndGo(cs));
    FullAndEmpty(Run(s, ComeAndGo(cs)), last);
  }
}
