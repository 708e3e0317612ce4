/** The collection of empty mounts, over all runs: mounts come and go under their
    names, a mount counts its clients beside the map that holds them, and a mount
    registered for collection is deleted by its name. */
module Collection {
  import opened Text
  import opened Failover

  /** A mount object: its name, its byID and its Length. */
  datatype Box<C(==)> = Box(name: string, members: set<C>, length: int)

  /** Mounts are numbered as they are created. `filed` is the manager's table,
      `home` the name each connected client came for, `collector` the channel of
      mounts to collect, and `registered` all that were ever put into it. */
  datatype World<C(==)> = World(filed: map<string, nat>, boxes: seq<Box<C>>, home: map<C, string>,
                                collector: seq<nat>, registered: seq<nat>)

  /** A client joins, is refused by a full queue, or leaves; or a mount is taken
      from the collector. */
  datatype Event<C(==)> = Join(c: C, name: string) | Refuse(name: string) | Leave(c: C) | Collect

  /** Numbers in use, mounts filed under their own names, holding clients that came
      for them. */
  predicate WellFormed<C>(w: World<C>)
  {
    && (forall n :: n in w.filed ==> w.filed[n] < |w.boxes| && w.boxes[w.filed[n]].name == n)
    && (forall n, c :: n in w.filed && c in w.boxes[w.filed[n]].members ==> c in w.home && w.home[c] == n)
    && (forall i :: 0 <= i < |w.collector| ==> w.collector[i] < |w.boxes|)
  }

  /** A client leaves also if its own mount was deleted; if then no mount has the
      name, the manager panics, and the run is over. */
  predicate Enabled<C>(w: World<C>, e: Event<C>)
  {
    match e
    case Join(c, _) => c !in w.home
    case Refuse(n) => n in w.filed
    case Leave(c) => c in w.home && w.home[c] in w.filed
    case Collect => w.collector != []
  }

  function Register<C>(w: World<C>, id: nat): (u: World<C>)
  {
    w.(collector := w.collector + [id], registered := w.registered + [id])
  }

  /** The box `c` is taken out of: one less is counted, whoever it was. */
  function Without<C>(b: Box<C>, c: C): (d: Box<C>)
  {
    Box(b.name, b.members - {c}, b.length - 1)
  }

  function Next<C>(w: World<C>, e: Event<C>): (u: World<C>)
    requires WellFormed(w) && Enabled(w, e)
    ensures WellFormed(u)
  {
    match e
    case Join(c, n) =>
      var v := w.(home := w.home[c := n]);
      if n in w.filed then
        var b := w.boxes[w.filed[n]];
        v.(boxes := w.boxes[w.filed[n] := Box(n, b.members + {c}, b.length + 1)])
      else v.(filed := w.filed[n := |w.boxes|], boxes := w.boxes + [Box(n, {c}, 1)])
    case Refuse(n) => if w.boxes[w.filed[n]].length == 0 then Register(w, w.filed[n]) else w
    case Leave(c) =>
      var id := w.filed[w.home[c]];
      var u := w.(home := w.home - {c}, boxes := w.boxes[id := Without(w.boxes[id], c)]);
      if u.boxes[id].length == 0 then Register(u, id) else u
    case Collect =>
      var id := w.collector[0];
      var u := w.(collector := w.collector[1..]);
      if w.boxes[id].length > 0 then u else u.(filed := w.filed - {w.boxes[id].name})
  }

  /** A connected client that no filed mount holds: its packets are dropped. */
  predicate Stranded<C>(w: World<C>, c: C)
    requires WellFormed(w)
  {
    c in w.home && (w.home[c] in w.filed ==> c !in w.boxes[w.filed[w.home[c]]].members)
  }

  predicate Lost<C>(w: World<C>)
    requires WellFormed(w)
  {
    exists c :: c in w.home && Stranded(w, c)
  }

  /** The mount taken from the collector counts no clients, and the mount that has
      its name by now holds some. */
  predicate Takes<C>(w: World<C>, e: Event<C>)
    requires WellFormed(w)
  {
    e.Collect? && w.collector != [] &&
    var b := w.boxes[w.collector[0]];
    b.length <= 0 && b.name in w.filed && w.boxes[w.filed[b.name]].members != {}
  }

  /** What becomes of one client in one step. */
  lemma StrandedNext<C>(w: World<C>, e: Event<C>, c: C)
    requires WellFormed(w) && Enabled(w, e) && c in w.home && e != Leave(c)
    ensures c in Next(w, e).home
    ensures Stranded(Next(w, e), c) <==>
            Stranded(w, c) || (Takes(w, e) && w.boxes[w.collector[0]].name == w.home[c])
  {
  }

  /** A step strands clients exactly if it is such a collection; then it strands
      all that the filed mount holds. */
  lemma LosesIff<C>(w: World<C>, e: Event<C>)
    requires WellFormed(w) && Enabled(w, e)
    ensures (exists c :: c in Next(w, e).home && Stranded(Next(w, e), c) && !Stranded(w, c)) <==> Takes(w, e)
  {
    var u := Next(w, e);
    if c :| c in u.home && Stranded(u, c) && !Stranded(w, c) {
      if c in w.home {
        StrandedNext(w, e, c);
      }
    }
    if Takes(w, e) {
      var n := w.boxes[w.collector[0]].name;
      var c :| c in w.boxes[w.filed[n]].members;
      StrandedNext(w, e, c);
    }
  }

  // ---------------------------------------------------------------------
  // Runs
  // ---------------------------------------------------------------------

  predicate ValidRun<C>(w: World<C>, es: seq<Event<C>>)
    requires WellFormed(w)
    decreases |es|
  {
    es == [] || (Enabled(w, es[0]) && ValidRun(Next(w, es[0]), es[1..]))
  }

  function Run<C>(w: World<C>, es: seq<Event<C>>): (u: World<C>)
    requires WellFormed(w) && ValidRun(w, es)
    ensures WellFormed(u)
    decreases |es|
  {
    if es == [] then w else Run(Next(w, es[0]), es[1..])
  }

  predicate TakesSomewhere<C>(w: World<C>, es: seq<Event<C>>)
    requires WellFormed(w) && ValidRun(w, es)
    decreases |es|
  {
    es != [] && (Takes(w, es[0]) || TakesSomewhere(Next(w, es[0]), es[1..]))
  }

  /** At some point of the run a client is stranded. */
  predicate EverLost<C>(w: World<C>, es: seq<Event<C>>)
    requires WellFormed(w) && ValidRun(w, es)
    decreases |es|
  {
    Lost(w) || (es != [] && EverLost(Next(w, es[0]), es[1..]))
  }

  lemma LostNext<C>(w: World<C>, e: Event<C>)
    requires WellFormed(w) && Enabled(w, e) && !Lost(w)
    ensures Lost(Next(w, e)) <==> Takes(w, e)
  {
    LosesIff(w, e);
    var u := Next(w, e);
    if c :| c in u.home && Stranded(u, c) {
      assert !Stranded(w, c);
    }
  }

  lemma LostNow<C>(w: World<C>, es: seq<Event<C>>)
    requires WellFormed(w) && ValidRun(w, es) && Lost(w)
    ensures EverLost(w, es)
  {
  }

  /** Over every run: a client is stranded exactly if some collection takes a mount
      that holds clients. */
  lemma {:induction false} LostIff<C>(w: World<C>, es: seq<Event<C>>)
    requires WellFormed(w) && ValidRun(w, es) && !Lost(w)
    ensures EverLost(w, es) <==> TakesSomewhere(w, es)
    decreases |es|
  {
    if es != [] {
      var u := Next(w, es[0]);
      LostNext(w, es[0]);
      if Lost(u) {
        LostNow(u, es[1..]);
      } else {
        LostIff(u, es[1..]);
      }
    }
  }

  // ---------------------------------------------------------------------
  // When nobody is lost
  // ---------------------------------------------------------------------

  predicate IsFiled<C>(w: World<C>, id: nat)
    requires id < |w.boxes|
  {
    w.boxes[id].name in w.filed && w.filed[w.boxes[id].name] == id
  }

  predicate Waiting<C>(w: World<C>)
    requires WellFormed(w)
  {
    forall i :: 0 <= i < |w.collector| ==> IsFiled(w, w.collector[i]) && w.collector[i] in w.registered
  }

  predicate Exact<C>(w: World<C>)
    requires WellFormed(w)
  {
    forall n :: n in w.filed ==> w.boxes[w.filed[n]].length == |w.boxes[w.filed[n]].members|
  }

  /** Who waits in the collector is filed, and waits once; the counters of filed
      mounts agree with their maps; nobody is stranded. */
  predicate Tidy<C>(w: World<C>)
    requires WellFormed(w)
  {
    Distinct(w.collector) && Waiting(w) && Exact(w) && !Lost(w)
  }

  /** The step does not register a mount that is still waiting. */
  predicate RegistersFresh<C>(w: World<C>, e: Event<C>)
    requires WellFormed(w) && Enabled(w, e)
  {
    |Next(w, e).collector| > |w.collector| ==>
      (e.Refuse? ==> w.filed[e.name] !in w.collector) && (e.Leave? ==> w.filed[w.home[e.c]] !in w.collector)
  }

  lemma ExactStep<C>(w: World<C>, e: Event<C>)
    requires WellFormed(w) && Enabled(w, e) && Exact(w) && !Lost(w)
    ensures Exact(Next(w, e))
  {
    var u := Next(w, e);
    if e.Leave? {
      assert !Stranded(w, e.c);
    }
    forall n | n in u.filed ensures u.boxes[u.filed[n]].length == |u.boxes[u.filed[n]].members| {
      if n in w.filed {
        assert w.boxes[w.filed[n]].length == |w.boxes[w.filed[n]].members|;
      }
    }
  }

  lemma WaitingStep<C>(w: World<C>, e: Event<C>)
    requires WellFormed(w) && Enabled(w, e) && Distinct(w.collector) && Waiting(w) && RegistersFresh(w, e)
    ensures Distinct(Next(w, e).collector) && Waiting(Next(w, e))
  {
    var u := Next(w, e);
    forall i | 0 <= i < |u.collector| ensures IsFiled(u, u.collector[i]) && u.collector[i] in u.registered {
      if e.Collect? {
        assert u.collector[i] == w.collector[i + 1] && IsFiled(w, w.collector[0]);
      } else if i < |w.collector| {
        assert u.collector[i] == w.collector[i] && IsFiled(w, w.collector[i]);
      }
    }
  }

  lemma TidyStep<C>(w: World<C>, e: Event<C>)
    requires WellFormed(w) && Enabled(w, e) && Tidy(w) && RegistersFresh(w, e)
    ensures Tidy(Next(w, e)) && !Takes(w, e)
  {
    if e.Collect? {
      assert IsFiled(w, w.collector[0]);
    }
    LostNext(w, e);
    ExactStep(w, e);
    WaitingStep(w, e);
  }

  predicate FreshThroughout<C>(w: World<C>, es: seq<Event<C>>)
    requires WellFormed(w) && ValidRun(w, es)
    decreases |es|
  {
    es == [] || (RegistersFresh(w, es[0]) && FreshThroughout(Next(w, es[0]), es[1..]))
  }

  /** As long as no mount is registered while it still waits, nobody is lost. */
  lemma {:induction false} FreshLosesNobody<C>(w: World<C>, es: seq<Event<C>>)
    requires WellFormed(w) && ValidRun(w, es) && Tidy(w) && FreshThroughout(w, es)
    ensures !EverLost(w, es)
    decreases |es|
  {
    if es != [] {
      TidyStep(w, es[0]);
      FreshLosesNobody(Next(w, es[0]), es[1..]);
    }
  }

  lemma RegisteredNext<C>(w: World<C>, e: Event<C>)
    requires WellFormed(w) && Enabled(w, e)
    ensures w.registered <= Next(w, e).registered
  {
  }

  lemma {:induction false} RegisteredGrows<C>(w: World<C>, es: seq<Event<C>>)
    requires WellFormed(w) && ValidRun(w, es)
    ensures w.registered <= Run(w, es).registered
    decreases |es|
  {
    if es != [] {
      RegisteredNext(w, es[0]);
      RegisteredGrows(Next(w, es[0]), es[1..]);
    }
  }

  lemma NotBefore(s: seq<nat>, id: nat)
    requires Distinct(s + [id])
    ensures id !in s
  {
    forall k | 0 <= k < |s| ensures s[k] != id {
      assert (s + [id])[k] == s[k] && (s + [id])[|s|] == id;
    }
  }

  lemma FreshIfDistinct<C>(w: World<C>, e: Event<C>)
    requires WellFormed(w) && Enabled(w, e) && Waiting(w) && Distinct(Next(w, e).registered)
    ensures RegistersFresh(w, e)
  {
    var u := Next(w, e);
    if |u.collector| > |w.collector| {
      var id := u.collector[|w.collector|];
      assert u.registered == w.registered + [id];
      NotBefore(w.registered, id);
      assert forall i :: 0 <= i < |w.collector| ==> w.collector[i] in w.registered;
    }
  }

  lemma DistinctPrefix(s: seq<nat>, t: seq<nat>)
    requires s <= t && Distinct(t)
    ensures Distinct(s)
  {
    assert forall i :: 0 <= i < |s| ==> s[i] == t[i];
  }

  lemma {:induction false} OnceIsFresh<C>(w: World<C>, es: seq<Event<C>>)
    requires WellFormed(w) && ValidRun(w, es) && Tidy(w) && Distinct(Run(w, es).registered)
    ensures FreshThroughout(w, es)
    decreases |es|
  {
    if es != [] {
      var u := Next(w, es[0]);
      RegisteredGrows(u, es[1..]);
      DistinctPrefix(u.registered, Run(w, es).registered);
      FreshIfDistinct(w, es[0]);
      TidyStep(w, es[0]);
      OnceIsFresh(u, es[1..]);
    }
  }

  function Empty<C>(): (w: World<C>)
    ensures WellFormed(w) && Tidy(w)
  {
    World(map[], [], map[], [], [])
  }

  /** As long as every mount is registered at most once, nobody is lost. */
  lemma RegisteredOnceLosesNobody<C>(es: seq<Event<C>>)
    requires ValidRun(Empty<C>(), es) && Distinct(Run(Empty<C>(), es).registered)
    ensures !EverLost(Empty<C>(), es)
  {
    OnceIsFresh(Empty<C>(), es);
    FreshLosesNobody(Empty<C>(), es);
  }
}
