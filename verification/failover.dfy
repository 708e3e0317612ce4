/** Live-source failover on one mount: who is live, who waits, and what is
    forwarded, over every run of joins, leaves and packets. */
module Failover {
  import opened Text

  const QUEUE_LIMIT := 100

  // ---------------------------------------------------------------------
  // The mount as the code keeps it
  // ---------------------------------------------------------------------

  /** `active` may be a client that has left, and `queue` may hold clients that
      have left; `members` are the keys of byID. */
  datatype MountView<C(==)> = MountView(active: Option<C>, queue: seq<C>, members: set<C>)

  predicate Distinct<C(==)>(s: seq<C>)
  {
    forall i, j :: 0 <= i < j < |s| ==> s[i] != s[j]
  }

  predicate Inv<C>(v: MountView<C>)
  {
    && Distinct(v.queue) && |v.queue| <= QUEUE_LIMIT
    && v.active.Some? && v.active.value !in v.queue
    && forall c :: c in v.members ==> c == v.active.value || c in v.queue
  }

  /** A client that has never been on this mount. */
  predicate Unknown<C>(v: MountView<C>, c: C)
  {
    c !in v.members && c !in v.queue && v.active != Some(c)
  }

  function Created<C>(c: C): (v: MountView<C>)
  {
    MountView(Some(c), [], {c})
  }

  predicate Accepts<C>(v: MountView<C>)
  {
    |v.queue| < QUEUE_LIMIT
  }

  /** AddClient on an existing mount; a refused client is taken out again. */
  function Joined<C>(v: MountView<C>, c: C): (w: MountView<C>)
  {
    if Accepts(v) then v.(queue := v.queue + [c], members := v.members + {c}) else v
  }

  /** NextLiveClient: pops until it finds a client that is still there. */
  function Promoted<C>(v: MountView<C>): (w: MountView<C>)
    ensures w.members == v.members
    ensures v.active.Some? ==> w.active.Some?
    decreases |v.queue|
  {
    if v.queue == [] then v
    else if v.queue[0] in v.members then v.(active := Some(v.queue[0]), queue := v.queue[1..])
    else Promoted(v.(queue := v.queue[1..]))
  }

  /** RemoveClient. */
  function Left<C>(v: MountView<C>, c: C): (w: MountView<C>)
  {
    var u := if v.active == Some(c) then Promoted(v) else v;
    u.(members := u.members - {c})
  }

  // ---------------------------------------------------------------------
  // What it means: a live client and an ordered waiting list
  // ---------------------------------------------------------------------

  datatype Stage<C(==)> = Stage(live: Option<C>, waiting: seq<C>)

  function Present<C>(s: seq<C>, members: set<C>): (r: seq<C>)
    ensures forall c :: c in r ==> c in s && c in members
    ensures forall c :: c in s && c in members ==> c in r
  {
    if s == [] then []
    else if s[0] in members then [s[0]] + Present(s[1..], members)
    else Present(s[1..], members)
  }

  function StageOf<C>(v: MountView<C>): (s: Stage<C>)
  {
    Stage(if v.active.Some? && v.active.value in v.members then v.active else None, Present(v.queue, v.members))
  }

  function Without<C(==)>(s: seq<C>, c: C): (r: seq<C>)
    ensures |r| <= |s|
  {
    if s == [] then [] else if s[0] == c then s[1..] else [s[0]] + Without(s[1..], c)
  }

  function StageJoin<C>(s: Stage<C>, c: C): (r: Stage<C>)
  {
    s.(waiting := s.waiting + [c])
  }

  /** When the live client leaves, the head of the waiting list goes live. */
  function StageLeave<C>(s: Stage<C>, c: C): (r: Stage<C>)
  {
    if s.live == Some(c) then
      if s.waiting == [] then Stage(None, []) else Stage(Some(s.waiting[0]), s.waiting[1..])
    else s.(waiting := Without(s.waiting, c))
  }

  /** Everybody connected, the live client first. */
  function Everybody<C>(s: Stage<C>): (r: seq<C>)
  {
    (if s.live.Some? then [s.live.value] else []) + s.waiting
  }

  // ---------------------------------------------------------------------
  // The code refines the stage
  // ---------------------------------------------------------------------

  lemma {:induction false} PresentAppend<C>(s: seq<C>, c: C, m: set<C>)
    ensures Present(s + [c], m) == Present(s, m) + if c in m then [c] else []
  {
    if s == [] {
      assert s + [c] == [c] && [c][1..] == [];
    } else {
      PresentAppend(s[1..], c, m);
      assert (s + [c])[1..] == s[1..] + [c];
    }
  }

  lemma {:induction false} PresentMore<C>(s: seq<C>, c: C, m: set<C>)
    requires c !in s
    ensures Present(s, m + {c}) == Present(s, m)
  {
    if s != [] {
      PresentMore(s[1..], c, m);
    }
  }

  lemma {:induction false} PresentLess<C>(s: seq<C>, c: C, m: set<C>)
    requires Distinct(s)
    ensures Present(s, m - {c}) == if c in m then Without(Present(s, m), c) else Present(s, m)
  {
    if s != [] {
      PresentLess(s[1..], c, m);
      if s[0] == c {
        assert c !in s[1..];
        if c in m {
          PresentGone(s[1..], c, m);
        }
      }
      if s[0] in m {
        assert Present(s, m)[1..] == Present(s[1..], m);
      }
    }
  }

  lemma {:induction false} PresentGone<C>(s: seq<C>, c: C, m: set<C>)
    requires c !in s
    ensures Present(s, m - {c}) == Present(s, m)
  {
    if s != [] {
      PresentGone(s[1..], c, m);
    }
  }

  lemma JoinRefines<C>(v: MountView<C>, c: C)
    requires Inv(v) && Unknown(v, c)
    ensures Inv(Joined(v, c))
    ensures StageOf(Joined(v, c)) == if Accepts(v) then StageJoin(StageOf(v), c) else StageOf(v)
  {
    if Accepts(v) {
      PresentAppend(v.queue, c, v.members + {c});
      PresentMore(v.queue, c, v.members);
    }
  }

  /** NextLiveClient takes the head of the waiting list, or nobody. */
  lemma {:induction false} PromotedStage<C>(v: MountView<C>)
    requires Inv(v)
    ensures var w := Promoted(v); var waiting := Present(v.queue, v.members);
            && Inv(w.(members := w.members - {v.active.value}))
            && Present(w.queue, w.members) == (if waiting == [] then [] else waiting[1..])
            && w.active == (if waiting == [] then v.active else Some(waiting[0]))
            && (waiting == [] ==> w.queue == [])
            && (forall c :: c in w.queue ==> c in v.queue)
    decreases |v.queue|
  {
    if v.queue != [] {
      if v.queue[0] !in v.members {
        PromotedStage(v.(queue := v.queue[1..]));
      } else {
        assert Present(v.queue, v.members)[1..] == Present(v.queue[1..], v.members);
      }
    }
  }

  lemma LeaveRefines<C>(v: MountView<C>, c: C)
    requires Inv(v) && c in v.members
    ensures Inv(Left(v, c))
    ensures StageOf(Left(v, c)) == StageLeave(StageOf(v), c)
  {
    if v.active == Some(c) {
      var w := Promoted(v);
      PromotedStage(v);
      PresentGone(w.queue, c, w.members);
    } else {
      PresentLess(v.queue, c, v.members);
    }
  }

  /** Everybody is connected, each once: the waiting list is exactly the
      connected clients that are not live. */
  lemma WaitingIsTheRest<C>(v: MountView<C>)
    requires Inv(v)
    ensures forall c :: c in StageOf(v).waiting <==> c in v.members && StageOf(v).live != Some(c)
    ensures Distinct(StageOf(v).waiting)
  {
    PresentDistinct(v.queue, v.members);
  }

  lemma {:induction false} PresentDistinct<C>(s: seq<C>, m: set<C>)
    requires Distinct(s)
    ensures Distinct(Present(s, m)) && |Present(s, m)| <= |s|
  {
    if s != [] {
      PresentDistinct(s[1..], m);
      var r := Present(s[1..], m);
      assert forall i :: 0 <= i < |r| ==> r[i] in s[1..];
    }
  }

  /** Once nobody is live, nobody ever will be on this mount. */
  lemma NobodyLiveStays<C>(v: MountView<C>, c: C)
    requires Inv(v) && StageOf(v).live.None?
    ensures Unknown(v, c) ==> StageOf(Joined(v, c)).live.None?
    ensures c in v.members ==> StageOf(Left(v, c)).live.None?
  {
    if Unknown(v, c) {
      JoinRefines(v, c);
    }
    if c in v.members {
      LeaveRefines(v, c);
    }
  }
}
