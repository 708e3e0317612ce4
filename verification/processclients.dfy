/** ProcessClients on one mount: the objects of module Icecast take exactly the
    steps of module FailoverRuns, event after event. */
module ProcessClients {
  import opened Text
  import opened Failover
  import opened FailoverRuns
  import opened Icecast

  /** The manager's objects hold what the run says. */
  ghost predicate Holds(man: Manager, name: string, s: Sys<Client>)
    reads man, man.registry, man.mounts.Values, set m | m in man.mounts.Values :: m.clients
  {
    && man.Valid() && name in man.mounts
    && man.View(name) == s.view && man.registry.Entry(name) == s.entry
  }

  ghost predicate Linked(man: Manager, name: string, s: Sys<Client>)
    reads man, man.registry, man.mounts.Values, set m | m in man.mounts.Values :: m.clients
  {
    Holds(man, name, s) && man.Settled(name)
  }

  ghost predicate AllOn(s: Sys<Client>, name: string)
  {
    forall c :: c in s.known ==> c.mount == name
  }

  /** What the manager's methods rely on. */
  ghost predicate Fits(v: MountView<Client>, name: string)
  {
    && (forall c :: c in v.queue ==> c.mount == name)
    && v.active.Some? && v.active.value !in v.queue
  }

  /** The invariant of runs gives it. */
  lemma InvFits(s: Sys<Client>, name: string)
    requires SysInv(s) && AllOn(s, name)
    ensures Fits(s.view, name)
  {
    var t := s.lives + s.view.queue;
    forall i | 0 <= i < |s.view.queue| ensures s.view.queue[i].mount == name {
      assert t[|s.lives| + i] == s.view.queue[i];
    }
  }

  lemma ViewSettles(man: Manager, name: string)
    requires man.Valid() && name in man.mounts && Fits(man.View(name), name)
    ensures man.Settled(name)
  {
    assert man.mounts[name].View() == man.View(name);
  }

  method Joins(man: Manager, name: string, ghost s: Sys<Client>, c: Client)
    requires Linked(man, name, s) && !man.registry.locked && Unknown(s.view, c) && c.mount == name
    modifies man`collector, man.registry, man.Parts(name)
    ensures Holds(man, name, Step(s, Join(c))) && man.mounts == old(man.mounts)
    ensures man.registry.locked <==> LeaksLock(s, Join(c))
  {
    var ok := man.ReceiveNext(c);
  }

  method Leaves(man: Manager, name: string, ghost s: Sys<Client>, c: Client)
    requires Linked(man, name, s) && !man.registry.locked && c in s.view.members && c.mount == name
    modifies man`collector, man.registry, man.Parts(name)
    ensures Holds(man, name, Step(s, Leave(c))) && man.mounts == old(man.mounts)
    ensures man.registry.locked <==> LeaksLock(s, Leave(c))
  {
    assert man.mounts[name].View().members == s.view.members;
    var p := man.RemoveClient(c);
  }

  method Packets(man: Manager, name: string, ghost s: Sys<Client>, c: Client, data: string)
    returns (sent: seq<(Client, string)>)
    requires Linked(man, name, s) && c.mount == name
    ensures Step(s, Packet(c, data)).forwarded == s.forwarded + sent
  {
    var forwarded := man.Deliver(c);
    assert forwarded <==> s.view.active == Some(c);
    sent := if forwarded then [(c, data)] else [];
  }

  method Turn(man: Manager, name: string, ghost s: Sys<Client>, e: Event<Client>) returns (sent: seq<(Client, string)>)
    requires Linked(man, name, s) && !man.registry.locked && Enabled(s, e) && e.c.mount == name
    requires e.Join? ==> Unknown(s.view, e.c)
    modifies man`collector, man.registry, man.Parts(name)
    ensures Holds(man, name, Step(s, e)) && Step(s, e).forwarded == s.forwarded + sent && man.mounts == old(man.mounts)
    ensures man.registry.locked <==> LeaksLock(s, e)
  {
    sent := [];
    match e
    case Join(c) => Joins(man, name, s, c);
    case Leave(c) => Leaves(man, name, s, c);
    case Packet(c, data) => sent := Packets(man, name, s, c, data);
  }

  lemma TurnKeeps(s: Sys<Client>, name: string, e: Event<Client>)
    requires SysInv(s) && AllOn(s, name) && Enabled(s, e) && e.c.mount == name
    ensures SysInv(Step(s, e)) && AllOn(Step(s, e), name) && (e.Join? ==> Unknown(s.view, e.c))
  {
    StepInv(s, e);
    if e.Join? {
      NewcomerIsUnknown(s, e.c);
    }
  }

  /** One turn of the loop; `sent` is what HandleData is given. */
  method Handle(man: Manager, name: string, ghost s: Sys<Client>, e: Event<Client>) returns (sent: seq<(Client, string)>)
    requires Linked(man, name, s) && !man.registry.locked && Enabled(s, e) && e.c.mount == name
    requires (e.Join? ==> Unknown(s.view, e.c)) && Fits(Step(s, e).view, name)
    modifies man`collector, man.registry, man.Parts(name)
    ensures Linked(man, name, Step(s, e)) && man.mounts == old(man.mounts)
    ensures Step(s, e).forwarded == s.forwarded + sent
    ensures man.registry.locked <==> LeaksLock(s, e)
  {
    sent := Turn(man, name, s, e);
    ViewSettles(man, name);
  }

  lemma {:induction false} RunMore(s: Sys<Client>, es: seq<Event<Client>>, k: nat)
    requires k < |es| && ValidRun(s, es)
    ensures Run(s, es[..k + 1]) == Step(Run(s, es[..k]), es[k]) && Enabled(Run(s, es[..k]), es[k])
    decreases k
  {
    if k == 0 {
      assert es[..1][1..] == [] && es[..0] == [];
    } else {
      RunMore(Step(s, es[0]), es[1..], k - 1);
      assert es[..k + 1][1..] == es[1..][..k] && es[..k][1..] == es[1..][..k - 1];
    }
  }

  /** Whether the last of the first `n` events left the lock held. */
  ghost predicate LockedAt(s: Sys<Client>, es: seq<Event<Client>>, n: nat)
    requires n <= |es|
  {
    n > 0 && LeaksLock(Run(s, es[..n - 1]), es[n - 1])
  }

  /** The objects after the first `n` events. */
  ghost predicate Reached(man: Manager, name: string, start: Sys<Client>, es: seq<Event<Client>>, n: nat)
    requires n <= |es|
    reads man, man.registry, man.mounts.Values, set m | m in man.mounts.Values :: m.clients
  {
    var s := Run(start, es[..n]);
    && Linked(man, name, s)
    && (man.registry.locked <==> LockedAt(start, es, n))
  }

  /** The start of a run, and events for clients of this mount. */
  ghost predicate RunOn(start: Sys<Client>, es: seq<Event<Client>>, name: string)
  {
    SysInv(start) && AllOn(start, name) && ValidRun(start, es) && forall i :: 0 <= i < |es| ==> es[i].c.mount == name
  }

  lemma {:induction false} RunOnAt(start: Sys<Client>, es: seq<Event<Client>>, name: string, n: nat)
    requires RunOn(start, es, name) && n <= |es|
    ensures SysInv(Run(start, es[..n])) && AllOn(Run(start, es[..n]), name)
    decreases n
  {
    if n > 0 {
      RunMore(start, es, n - 1);
      RunOnAt(start, es, name, n - 1);
      TurnKeeps(Run(start, es[..n - 1]), name, es[n - 1]);
    }
  }

  method Advance(man: Manager, name: string, ghost start: Sys<Client>, ghost s: Sys<Client>, es: seq<Event<Client>>, n: nat)
    returns (more: seq<(Client, string)>)
    requires n < |es| && s == Run(start, es[..n]) && Linked(man, name, s) && !man.registry.locked && RunOn(start, es, name)
    modifies man`collector, man.registry, man.Parts(name)
    ensures Linked(man, name, Run(start, es[..n + 1])) && man.mounts == old(man.mounts)
    ensures man.registry.locked <==> LeaksLock(s, es[n])
    ensures Run(start, es[..n + 1]).forwarded == s.forwarded + more
  {
    TurnFits(start, s, es, name, n);
    more := Handle(man, name, s, es[n]);
  }

  lemma TurnFits(start: Sys<Client>, s: Sys<Client>, es: seq<Event<Client>>, name: string, n: nat)
    requires RunOn(start, es, name) && n < |es| && s == Run(start, es[..n])
    ensures Run(start, es[..n + 1]) == Step(s, es[n]) && Enabled(s, es[n]) && es[n].c.mount == name
    ensures (es[n].Join? ==> Unknown(s.view, es[n].c)) && Fits(Step(s, es[n]).view, name)
  {
    RunMore(start, es, n);
    RunOnAt(start, es, name, n);
    TurnKeeps(s, name, es[n]);
    InvFits(Step(s, es[n]), name);
  }

  method ProcessEvents(man: Manager, name: string, ghost start: Sys<Client>, es: seq<Event<Client>>)
    returns (done: nat, sent: seq<(Client, string)>)
    requires Reached(man, name, start, es, 0) && start.forwarded == [] && RunOn(start, es, name)
    modifies man`collector, man.registry, man.Parts(name)
    ensures done <= |es| && Reached(man, name, start, es, done)
    ensures sent == Run(start, es[..done]).forwarded
    ensures done < |es| ==> man.registry.locked
  {
    done, sent := 0, [];
    while done < |es| && !man.registry.locked
      invariant done <= |es| && Reached(man, name, start, es, done) && sent == Run(start, es[..done]).forwarded
      invariant man.mounts == old(man.mounts)
      decreases |es| - done
    {
      var more := Advance(man, name, start, Run(start, es[..done]), es, done);
      sent, done := sent + more, done + 1;
    }
  }

  /** The event loop from the first client of a mount on. It gets through all the
      events, or stops at the one that leaves the registry's lock held; so far,
      mount, registry entry and forwarded packets are those of the run. */
  method ProcessMount(man: Manager, first: Client, es: seq<Event<Client>>)
    returns (done: nat, sent: seq<(Client, string)>)
    requires man.Valid() && first.mount !in man.mounts && first.mount !in man.registry.mounts && !man.registry.locked
    requires ValidRun(Start(first), es) && forall i :: 0 <= i < |es| ==> es[i].c.mount == first.mount
    modifies man`mounts, man`collector, man.registry
    ensures done <= |es| && Linked(man, first.mount, Run(Start(first), es[..done]))
    ensures sent == Run(Start(first), es[..done]).forwarded
    ensures done < |es| ==> man.registry.locked
    ensures man.registry.locked <==> LockedAt(Start(first), es, done)
  {
    man.ReceiveFirst(first);
    StartInv(first);
    assert Run(Start(first), es[..0]) == Start(first);
    InvFits(Start(first), first.mount);
    ViewSettles(man, first.mount);
    done, sent := ProcessEvents(man, first.mount, Start(first), es);
  }
}
