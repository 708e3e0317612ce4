/** The manager's objects, updated in place as the event loop does. */
module Icecast {
  import opened Text
  import opened Failover
  import opened FailoverRuns

  /** A source connection. Its ClientID is allocated together with it and never
      shared, so one reference stands for either pointer. */
  class Client {
    const mount: string

    constructor (mount: string)
      ensures this.mount == mount
    {
      this.mount := mount;
    }
  }

  const INT32_LIMIT := 0x8000_0000

  /** atomic.AddInt32 wraps around. */
  function AddInt32(n: int, d: int): (r: int)
    ensures -INT32_LIMIT <= n + d < INT32_LIMIT ==> r == n + d
    ensures -INT32_LIMIT <= r < INT32_LIMIT
  {
    (n + d + INT32_LIMIT) % (2 * INT32_LIMIT) - INT32_LIMIT
  }

  class ClientContainer {
    var byID: map<Client, Client>
    var length: int

    ghost predicate Valid()
      reads this
    {
      forall c :: c in byID ==> byID[c] == c
    }

    /** The separate counter agrees with the map. Remove takes one off whether or
        not the client was there. */
    predicate Exact()
      reads this
    {
      length == |byID|
    }

    constructor ()
      ensures Valid() && byID == map[] && Exact()
    {
      byID, length := map[], 0;
    }

    method Add(client: Client)
      modifies this
      ensures byID == old(byID)[client := client] && length == AddInt32(old(length), 1)
    {
      byID := byID[client := client];
      length := AddInt32(length, 1);
    }

    method Remove(client: Client)
      modifies this
      ensures byID == old(byID) - {client} && length == AddInt32(old(length), -1)
    {
      byID := byID - {client};
      length := AddInt32(length, -1);
    }

    method GetByID(id: Client) returns (client: Option<Client>)
      requires Valid()
      ensures client == if id in byID then Some(id) else None
    {
      client := if id in byID then Some(byID[id]) else None;
    }
  }

  class Mount {
    const name: string
    const clients: ClientContainer
    var queue: seq<Client>
    var active: Client?

    constructor (name: string)
      ensures this.name == name && queue == [] && active == null
      ensures fresh(clients) && clients.Valid() && clients.byID == map[] && clients.Exact()
    {
      this.name, queue, active := name, [], null;
      clients := new ClientContainer();
    }

    function View(): (v: MountView<Client>)
      reads this, clients
    {
      var a: Client? := active;
      var live: Option<Client> := if a == null then None else Some(a as Client);
      MountView(live, queue, clients.byID.Keys)
    }
  }

  // ---------------------------------------------------------------------
  // handlers.go
  // ---------------------------------------------------------------------

  /** HandlerMounts and the lock that guards it. */
  class Registry {
    var mounts: map<string, seq<Client>>
    var locked: bool

    constructor ()
      ensures mounts == map[] && !locked
    {
      mounts, locked := map[], false;
    }

    function Entry(name: string): (e: Option<seq<Client>>)
      reads this
    {
      if name in mounts then Some(mounts[name]) else None
    }

    /** The other mounts' entries are as they were. */
    twostate predicate OthersSame(name: string)
      reads this
    {
      mounts - {name} == old(mounts) - {name}
    }

    method HandleClientConnect(client: Client)
      requires !locked
      modifies this
      ensures Entry(client.mount) == Connected(old(Entry(client.mount)), client)
      ensures OthersSame(client.mount) && !locked
    {
      locked := true;
      var list := if client.mount in mounts then mounts[client.mount] else [];
      list := list + [client];
      mounts := mounts[client.mount := list];
      locked := false;
    }

    /** The early return leaves the lock held. */
    method HandleClientDisconnect(client: Client)
      requires !locked
      modifies this
      ensures Entry(client.mount) == Disconnected(old(Entry(client.mount)), client)
      ensures OthersSame(client.mount)
      ensures locked <==> old(Entry(client.mount)).None?
    {
      locked := true;
      if client.mount !in mounts {
        return;
      }
      var list := mounts[client.mount];
      var i := 0;
      while i < |list|
        invariant 0 <= i <= |list| && client !in list[..i]
        invariant mounts == old(mounts) && locked
      {
        if list[i] == client {
          CutAt(list, client, i);
          list := list[..i] + list[i + 1..];
          mounts := mounts[client.mount := list];
          break;
        }
        i := i + 1;
      }
      if client !in old(mounts)[client.mount] {
        WithoutAbsent(list, client);
      }
      if |list| == 0 {
        mounts := mounts - {client.mount};
      }
      locked := false;
    }

    method HandleClientLive(client: Client)
      modifies this`mounts
      ensures Entry(client.mount) == WentLive(old(Entry(client.mount)), client)
      ensures OthersSame(client.mount)
    {
      if client.mount !in mounts {
        return;
      }
      var list := mounts[client.mount];
      var i := 0;
      while i < |list|
        invariant 0 <= i <= |list| && client !in list[..i]
        invariant mounts == old(mounts)
      {
        if list[i] == client {
          CutAt(list, client, i);
          mounts := mounts[client.mount := [client] + (list[..i] + list[i + 1..])];
          break;
        }
        i := i + 1;
      }
    }
  }

  lemma {:induction false} CutAt(s: seq<Client>, c: Client, i: nat)
    requires i < |s| && s[i] == c && c !in s[..i]
    ensures Without(s, c) == s[..i] + s[i + 1..]
  {
    if i > 0 {
      assert s[0] == s[..i][0];
      assert s[1..][..i - 1] == s[..i][1..];
      CutAt(s[1..], c, i - 1);
      assert s[..i] + s[i + 1..] == [s[0]] + (s[1..][..i - 1] + s[1..][i..]);
    }
  }

  // ---------------------------------------------------------------------
  // The manager
  // ---------------------------------------------------------------------

  class Manager {
    var mounts: map<string, Mount>
    var collector: seq<Mount>
    const registry: Registry

    constructor ()
      ensures Valid() && mounts == map[] && collector == [] && fresh(registry)
      ensures registry.mounts == map[] && !registry.locked
    {
      mounts, collector := map[], [];
      registry := new Registry();
    }

    /** Mounts are filed under their names and share no container. */
    ghost predicate Valid()
      reads this, mounts.Values, set m | m in mounts.Values :: m.clients
    {
      && (forall n :: n in mounts ==> mounts[n].name == n && mounts[n].clients.Valid())
      && (forall n, k :: n in mounts && k in mounts && n != k ==> mounts[n].clients != mounts[k].clients)
    }

    /** The mount as the run model sees it. */
    ghost function View(name: string): (v: MountView<Client>)
      requires name in mounts
      reads this, mounts.Values, set m | m in mounts.Values :: m.clients
    {
      mounts[name].View()
    }

    /** The objects of one mount: all that an event on it changes besides the
        manager's own tables. */
    ghost function Parts(name: string): (r: set<object>)
      reads this
    {
      if name in mounts then {mounts[name], mounts[name].clients} else {}
    }

    /** SwapLiveClient; the metadata message it queues is not modelled. */
    method SwapLiveClient(mount: Mount, client: Client)
      requires client.mount == mount.name
      modifies mount`active, registry`mounts
      ensures mount.active == client
      ensures old(mount.active) == client ==> registry.mounts == old(registry.mounts)
      ensures old(mount.active) != client ==>
                registry.Entry(mount.name) == WentLive(old(registry.Entry(mount.name)), client)
      ensures registry.OthersSame(mount.name)
    {
      if mount.active == client {
        return;
      }
      mount.active := client;
      registry.HandleClientLive(client);
    }

    /** NextLiveClient. */
    method NextLiveClient(mount: Mount)
      requires mount.clients.Valid() && mount.active != null && mount.active !in mount.queue
      requires forall c :: c in mount.queue ==> c.mount == mount.name
      modifies mount`active, mount`queue, registry`mounts
      ensures mount.View() == Promoted(old(mount.View()))
      ensures registry.Entry(mount.name) ==
                if mount.View().active == old(mount.View()).active then old(registry.Entry(mount.name))
                else WentLive(old(registry.Entry(mount.name)), mount.View().active.value)
      ensures registry.OthersSame(mount.name)
      ensures forall c :: c in mount.queue ==> c in old(mount.queue)
    {
      while |mount.queue| > 0
        invariant mount.clients.Valid()
        invariant mount.active == old(mount.active)
        invariant forall c :: c in mount.queue ==> c in old(mount.queue)
        invariant Promoted(mount.View()) == Promoted(old(mount.View()))
        invariant registry.mounts == old(registry.mounts)
        decreases |mount.queue|
      {
        var id := mount.queue[0];
        mount.queue := mount.queue[1..];
        var found := mount.clients.GetByID(id);
        if found.None? || found.value != id {
          continue;
        }
        SwapLiveClient(mount, found.value);
        return;
      }
    }

    /** A mount in the state the runs of module FailoverRuns keep. */
    ghost predicate Settled(name: string)
      reads this, mounts.Values, set m | m in mounts.Values :: m.clients
    {
      name in mounts ==>
        && mounts[name].active != null && mounts[name].active !in mounts[name].queue
        && forall c :: c in mounts[name].queue ==> c.mount == name
    }

    /** The entry of the mount once `client` has left it. */
    ghost function EntryAfter(e: Option<seq<Client>>, before: MountView<Client>, after: MountView<Client>, client: Client): Option<seq<Client>>
    {
      Disconnected(if after.active == before.active || after.active.None? then e else WentLive(e, after.active.value), client)
    }

    /** RemoveClient on the mount it has found, be it the client's or a later one of
        the same name. */
    method RemoveFrom(mount: Mount, client: Client)
      requires mount.clients.Valid() && client.mount == mount.name && !registry.locked
      requires mount.active != null && mount.active !in mount.queue
      requires forall c :: c in mount.queue ==> c.mount == mount.name
      modifies mount, mount.clients, registry
      ensures mount.clients.Valid() && mount.View() == Left(old(mount.View()), client)
      ensures mount.clients.length == AddInt32(old(mount.clients.length), -1)
      ensures mount.clients.byID == old(mount.clients.byID) - {client}
      ensures registry.Entry(client.mount) ==
                EntryAfter(old(registry.Entry(client.mount)), old(mount.View()), mount.View(), client)
      ensures registry.OthersSame(client.mount)
      ensures registry.locked <==> old(registry.Entry(client.mount)).None?
    {
      if mount.active == client {
        NextLiveClient(mount);
      }
      mount.clients.Remove(client);
      registry.HandleClientDisconnect(client);
    }

    /** RemoveClient; it panics when no mount of the client's name is filed. The
        mount that has the name counts one client less, whether or not it was its. */
    method RemoveClient(client: Client) returns (panicked: bool)
      requires Valid() && !registry.locked
      requires client.mount in mounts ==>
                 var m := mounts[client.mount];
                 && m.active != null && m.active !in m.queue
                 && forall c :: c in m.queue ==> c.mount == m.name
      modifies this`collector, registry, Parts(client.mount)
      ensures Valid() && registry.OthersSame(client.mount) && mounts == old(mounts)
      ensures panicked <==> client.mount !in mounts
      ensures panicked ==> collector == old(collector) && registry.mounts == old(registry.mounts) && !registry.locked
      ensures !panicked ==>
                && View(client.mount) == Left(old(View(client.mount)), client)
                && registry.Entry(client.mount) ==
                     EntryAfter(old(registry.Entry(client.mount)), old(View(client.mount)), View(client.mount), client)
                && (registry.locked <==> old(registry.Entry(client.mount)).None?)
                && mounts[client.mount].clients.length == AddInt32(old(mounts[client.mount].clients.length), -1)
                && collector == old(collector) + if mounts[client.mount].clients.length == 0 then [mounts[client.mount]] else []
    {
      if client.mount !in mounts {
        return true;
      }
      var mount := mounts[client.mount];
      RemoveFrom(mount, client);
      if mount.clients.length == 0 {
        collector := collector + [mount];
      }
      panicked := false;
    }

    /** AddClient on a mount that exists. A client the queue has no room for is
        reported as an error, but stays in the container until RemoveClient
        takes it out. */
    method AddTo(mount: Mount, client: Client) returns (ok: bool)
      requires mount.clients.Valid() && client !in mount.clients.byID
      modifies mount`queue, mount.clients
      ensures mount.clients.Valid() && ok == (|old(mount.queue)| < QUEUE_LIMIT)
      ensures mount.queue == old(mount.queue) + if ok then [client] else []
      ensures mount.clients.byID == old(mount.clients.byID)[client := client]
      ensures mount.clients.length == AddInt32(old(mount.clients.length), 1)
    {
      mount.clients.Add(client);
      if |mount.queue| < QUEUE_LIMIT {
        mount.queue := mount.queue + [client];
        return true;
      }
      return false;
    }

    /** AddClient on a mount that does not exist yet. */
    method NewMountFor(client: Client) returns (mount: Mount)
      ensures fresh(mount) && fresh(mount.clients) && mount.clients.Valid() && mount.name == client.mount
      ensures mount.View() == Created(client) && mount.clients.length == 1
    {
      mount := new Mount(client.mount);
      mount.clients.Add(client);
      mount.active := client;
      assert mount.clients.byID.Keys == {client};
    }

    /** The client that creates a mount is live at once. */
    method ReceiveFirst(client: Client)
      requires Valid() && !registry.locked && client.mount !in mounts
      modifies this`mounts, registry
      ensures Valid() && client.mount in mounts && mounts == old(mounts)[client.mount := mounts[client.mount]]
      ensures View(client.mount) == Created(client) && fresh(Parts(client.mount))
      ensures mounts[client.mount].clients.length == 1
      ensures registry.Entry(client.mount) == Connected(old(registry.Entry(client.mount)), client)
      ensures registry.OthersSame(client.mount) && !registry.locked
    {
      var mount := NewMountFor(client);
      mounts := mounts[client.mount := mount];
      registry.HandleClientConnect(client);
    }

    /** Counting a client in, and out again if it is refused. */
    function CountAfter(n: int, ok: bool): (m: int)
    {
      if ok then AddInt32(n, 1) else AddInt32(AddInt32(n, 1), -1)
    }

    /** The Receiver case on a mount that exists, up to the collector. */
    method JoinMount(mount: Mount, client: Client) returns (ok: bool)
      requires mount.clients.Valid() && !registry.locked
      requires client.mount == mount.name && Unknown(mount.View(), client)
      requires mount.active != null && mount.active !in mount.queue
      requires forall c :: c in mount.queue ==> c.mount == mount.name
      modifies mount, mount.clients, registry
      ensures mount.clients.Valid() && ok == Accepts(old(mount.View()))
      ensures mount.View() == Joined(old(mount.View()), client)
      ensures mount.clients.length == CountAfter(old(mount.clients.length), ok)
      ensures registry.Entry(client.mount) ==
                (if ok then Connected(old(registry.Entry(client.mount)), client)
                 else Disconnected(old(registry.Entry(client.mount)), client))
      ensures registry.OthersSame(client.mount)
      ensures registry.locked <==> !ok && old(registry.Entry(client.mount)).None?
    {
      ok := AddTo(mount, client);
      if ok {
        registry.HandleClientConnect(client);
      } else {
        RefusedIsGone(old(mount.View()), client);
        RemoveFrom(mount, client);
      }
    }

    /** On a mount that exists the outcome is the `Join` step of the run model: a
        refused client is removed again at once. */
    method ReceiveNext(client: Client) returns (ok: bool)
      requires Valid() && Settled(client.mount) && !registry.locked && client.mount in mounts
      requires Unknown(View(client.mount), client)
      modifies this`collector, registry, Parts(client.mount)
      ensures Valid() && ok == Accepts(old(View(client.mount))) && mounts == old(mounts)
      ensures View(client.mount) == Joined(old(View(client.mount)), client)
      ensures registry.Entry(client.mount) ==
                (if ok then Connected(old(registry.Entry(client.mount)), client)
                 else Disconnected(old(registry.Entry(client.mount)), client))
      ensures registry.OthersSame(client.mount)
      ensures registry.locked <==> !ok && old(registry.Entry(client.mount)).None?
      ensures mounts[client.mount].clients.length == CountAfter(old(mounts[client.mount].clients.length), ok)
      ensures collector == old(collector) +
                if !ok && mounts[client.mount].clients.length == 0 then [mounts[client.mount]] else []
    {
      var mount := mounts[client.mount];
      ok := JoinMount(mount, client);
      if !ok && mount.clients.length == 0 {
        collector := collector + [mount];
      }
    }

    /** A data packet: forwarded only for the active client of a filed mount. */
    method Deliver(client: Client) returns (forwarded: bool)
      ensures forwarded <==> client.mount in mounts && mounts[client.mount].active == client
    {
      if client.mount !in mounts {
        return false;
      }
      var mount := mounts[client.mount];
      forwarded := mount.active == client;
    }

    /** Collecting `mount` takes the mount of connected clients away: it counts no
        clients, and the mount that has its name by now has some. That is another
        one, or the same with a counter that is off. */
    ghost predicate TakesClients(mount: Mount, filed: map<string, Mount>, n: string)
      requires n in filed
      reads mount.clients, filed[n].clients
    {
      && mount.clients.length <= 0 && n == mount.name && filed[n].clients.byID != map[]
      && (filed[n] == mount ==> !mount.clients.Exact())
    }

    /** The MountCollector case: a mount that counts no clients is deleted, by its
        name, under whatever clients the mount of that name has. */
    method Collect()
      requires collector != [] && Valid()
      modifies this`mounts, this`collector
      ensures collector == old(collector)[1..]
      ensures mounts == if old(collector)[0].clients.length > 0 then old(mounts) else old(mounts) - {old(collector)[0].name}
      ensures Valid()
      ensures forall n :: n in old(mounts) ==>
                (n !in mounts && old(mounts)[n].clients.byID != map[] <==> TakesClients(old(collector)[0], old(mounts), n))
    {
      var mount := collector[0];
      collector := collector[1..];
      if mount.clients.length > 0 {
        return;
      }
      mounts := mounts - {mount.name};
    }
  }

  /** The live client of a mount leaves it empty; it is registered for
      collection, still filed under its name. */
  method EmptyOnce(man: Manager, a: Client)
    requires man.Valid() && man.mounts == map[] && man.collector == []
    requires man.registry.mounts == map[] && !man.registry.locked
    modifies man, man.registry
    ensures man.Valid() && man.mounts.Keys == {a.mount} && man.View(a.mount) == MountView(Some(a), [], {})
    ensures man.mounts[a.mount].clients.length == 0
    ensures man.collector == [man.mounts[a.mount]] && fresh(man.Parts(a.mount))
    ensures man.registry.mounts == map[] && !man.registry.locked
  {
    man.ReceiveFirst(a);
    var p := man.RemoveClient(a);
    assert man.registry.Entry(a.mount) == None;
    assert man.registry.mounts - {a.mount} == map[];
  }

  /** Another client comes, never goes live, and leaves: registered again. */
  method EmptyTwice(man: Manager, a: Client, b: Client)
    requires man.Valid() && man.mounts.Keys == {a.mount} && man.View(a.mount) == MountView(Some(a), [], {})
    requires man.collector == [man.mounts[a.mount]] && a != b && b.mount == a.mount
    requires man.mounts[a.mount].clients.length == 0
    requires man.registry.mounts == map[] && !man.registry.locked
    modifies man`collector, man.registry, man.Parts(a.mount)
    ensures man.Valid() && man.View(a.mount).members == {} && a.mount in man.mounts
    ensures man.mounts[a.mount].clients.length == 0 && man.registry.mounts == map[]
    ensures man.collector == [man.mounts[a.mount], man.mounts[a.mount]] && !man.registry.locked
  {
    var ok := man.ReceiveNext(b);
    assert man.View(a.mount) == MountView(Some(a), [b], {b});
    LeaveEmpty(man, b);
  }

  method LeaveEmpty(man: Manager, b: Client)
    requires man.Valid() && b.mount in man.mounts && man.mounts[b.mount].clients.length == 1
    requires var v := man.View(b.mount); v.active.Some? && v.active != Some(b) && v == MountView(v.active, [b], {b})
    requires man.registry.mounts - {b.mount} == map[] && man.registry.Entry(b.mount) == Some([b]) && !man.registry.locked
    modifies man`collector, man.registry, man.Parts(b.mount)
    ensures man.Valid() && man.mounts == old(man.mounts) && man.View(b.mount).members == {}
    ensures man.mounts[b.mount].clients.length == 0 && man.registry.mounts == map[] && !man.registry.locked
    ensures man.collector == old(man.collector) + [man.mounts[b.mount]]
  {
    var p := man.RemoveClient(b);
    assert man.View(b.mount).members == {};
    assert man.registry.Entry(b.mount) == None && man.registry.mounts - {b.mount} == map[];
  }

  /** Registered twice, a mount is collected twice, and the second time that
      deletes whatever mount has the name by then: a connected client loses its
      mount, its data is dropped, and its leaving is a panic. */
  method CollectTwice(man: Manager, lost: Client) returns (forwarded: bool, panicked: bool)
    requires man.Valid() && lost.mount in man.mounts && man.mounts[lost.mount].clients.length == 0
    requires man.collector == [man.mounts[lost.mount], man.mounts[lost.mount]] && !man.registry.locked
    modifies man, man.registry
    ensures lost.mount !in man.mounts && !forwarded && panicked
  {
    ghost var m := man.mounts[lost.mount];
    man.Collect();
    man.ReceiveFirst(lost);
    assert lost in man.mounts[lost.mount].clients.byID;
    man.Collect();
    forwarded := man.Deliver(lost);
    panicked := man.RemoveClient(lost);
  }

  /** And a mount does get registered twice. */
  method StaleCollection(name: string) returns (lost: Client, forwarded: bool, panicked: bool)
    ensures !forwarded && panicked
  {
    var man := new Manager();
    var a := new Client(name);
    var b := new Client(name);
    lost := new Client(name);
    EmptyOnce(man, a);
    EmptyTwice(man, a, b);
    forwarded, panicked := CollectTwice(man, lost);
  }

  /** A client whose mount was taken leaves when another client has brought the
      name back: the new mount counts one client less than it has, is registered
      as empty, and is deleted under its live client. */
  method LateLeave(man: Manager, lost: Client, d: Client) returns (live: bool, forwarded: bool)
    requires man.Valid() && man.mounts == map[] && man.collector == [] && !man.registry.locked
    requires man.registry.mounts == map[lost.mount := [lost]] && d != lost && d.mount == lost.mount
    modifies man, man.registry
    ensures live && !forwarded && d.mount !in man.mounts
  {
    man.ReceiveFirst(d);
    live := man.Deliver(d);
    var p := man.RemoveClient(lost);
    ghost var m := man.mounts[d.mount];
    assert man.collector == [m] && m.clients.length == 0 && d in m.View().members;
    man.Collect();
    forwarded := man.Deliver(d);
  }

  /** And that situation arises: `lost` has its mount taken as in StaleCollection. */
  method StaleLeave(name: string) returns (d: Client, live: bool, forwarded: bool)
    ensures live && !forwarded
  {
    var man := new Manager();
    var a := new Client(name);
    var b := new Client(name);
    var lost := new Client(name);
    d := new Client(name);
    EmptyOnce(man, a);
    EmptyTwice(man, a, b);
    TakenAway(man, lost);
    live, forwarded := LateLeave(man, lost, d);
  }

  method TakenAway(man: Manager, lost: Client)
    requires man.Valid() && man.mounts.Keys == {lost.mount} && man.mounts[lost.mount].clients.length == 0
    requires man.collector == [man.mounts[lost.mount], man.mounts[lost.mount]]
    requires man.registry.mounts == map[] && !man.registry.locked
    modifies man, man.registry
    ensures man.Valid() && man.mounts == map[] && man.collector == [] && !man.registry.locked
    ensures man.registry.mounts == map[lost.mount := [lost]]
  {
    ghost var empty := man.mounts[lost.mount];
    man.Collect();
    assert man.mounts == map[];
    ComesBack(man, lost, empty);
    man.Collect();
    assert man.mounts == map[];
  }

  method ComesBack(man: Manager, lost: Client, ghost empty: Mount)
    requires man.Valid() && man.mounts == map[] && man.registry.mounts == map[] && !man.registry.locked
    requires man.collector == [empty] && empty.clients.length == 0
    modifies man`mounts, man.registry
    ensures man.Valid() && man.mounts.Keys == {lost.mount} && !man.registry.locked
    ensures man.collector == [empty] && empty.clients.length == 0
    ensures man.registry.mounts == map[lost.mount := [lost]]
  {
    man.ReceiveFirst(lost);
    assert [] + [lost] == [lost];
    assert man.registry.Entry(lost.mount) == Some([lost]) && man.registry.mounts - {lost.mount} == map[];
  }

  /** Adding a client to the container and removing it again changes nothing. */
  lemma RefusedIsGone(v: MountView<Client>, c: Client)
    requires Unknown(v, c)
    ensures Left(v.(queue := v.queue + [], members := v.members + {c}), c) == v
  {
    assert v.members + {c} - {c} == v.members && v.queue + [] == v.queue;
  }
}
