/** The transport's cache of idle connections. */
module IdlePool {
  import opened Text

  const DEFAULT_MAX_IDLE_CONNS_PER_HOST := 2

  class PersistConn {
    const cacheKey: string
    var broken: bool
    var closed: bool

    constructor (key: string)
      ensures cacheKey == key && !broken && !closed
    {
      cacheKey, broken, closed := key, false, false;
    }

    method Close()
      modifies this
      ensures broken && closed
    {
      broken := true;
      if !closed {
        closed := true;
      }
    }
  }

  predicate Distinct(s: seq<PersistConn>)
  {
    forall i, j :: 0 <= i < j < |s| ==> s[i] != s[j]
  }

  class Transport {
    var idleConn: map<string, seq<PersistConn>>
    const disableKeepAlives: bool
    const maxIdleConnsPerHost: int

    constructor (disable: bool, max: int)
      ensures Valid() && idleConn == map[] && disableKeepAlives == disable && maxIdleConnsPerHost == max
    {
      idleConn, disableKeepAlives, maxIdleConnsPerHost := map[], disable, max;
    }

    function Max(): (n: int)
    {
      if maxIdleConnsPerHost == 0 then DEFAULT_MAX_IDLE_CONNS_PER_HOST else maxIdleConnsPerHost
    }

    /** Each list is non-empty, within the maximum, and filed under the key of
        its connections. */
    ghost predicate Valid()
      reads this`idleConn
    {
      forall k :: k in idleConn ==>
        && 0 < |idleConn[k]| <= Max()
        && forall i :: 0 <= i < |idleConn[k]| ==> idleConn[k][i].cacheKey == k
    }

    /** No connection is cached twice. */
    ghost predicate NoRepeats()
      reads this`idleConn
    {
      forall k :: k in idleConn ==> Distinct(idleConn[k])
    }

    function Idle(key: string): (s: seq<PersistConn>)
      reads this`idleConn
    {
      if key in idleConn then idleConn[key] else []
    }

    /** How often a connection is cached. */
    ghost function Listed(pc: PersistConn): (n: nat)
      reads this`idleConn
    {
      multiset(Idle(pc.cacheKey))[pc]
    }

    /** putIdleConn. A connection is cached if reuse is on, it is not broken and
        there is room; otherwise it is not, and is closed unless it was broken.
        Nothing stops it from being cached twice: that is for the callers. */
    method PutIdleConn(pc: PersistConn) returns (ok: bool)
      requires Valid()
      modifies this`idleConn, pc
      ensures Valid() && idleConn - {pc.cacheKey} == old(idleConn) - {pc.cacheKey}
      ensures ok <==> !disableKeepAlives && maxIdleConnsPerHost >= 0 && !old(pc.broken) && |old(Idle(pc.cacheKey))| < Max()
      ensures Idle(pc.cacheKey) == old(Idle(pc.cacheKey)) + if ok then [pc] else []
      ensures Listed(pc) == old(Listed(pc)) + if ok then 1 else 0
      ensures old(NoRepeats()) ==> (NoRepeats() <==> !ok || pc !in old(Idle(pc.cacheKey)))
      ensures ok ==> !pc.broken
      ensures !ok ==> pc.broken
    {
      if disableKeepAlives || maxIdleConnsPerHost < 0 {
        pc.Close();
        return false;
      }
      if pc.broken {
        return false;
      }
      var key := pc.cacheKey;
      if |Idle(key)| >= Max() {
        pc.Close();
        return false;
      }
      ghost var was := Idle(key);
      idleConn := idleConn[key := Idle(key) + [pc]];
      OneMore(was, pc);
      return true;
    }

    /** getIdleConn. The newest connection that is not broken is taken out, and
        the broken ones above it are dropped; None means there is none. */
    method GetIdleConn(key: string) returns (r: Option<PersistConn>)
      requires Valid()
      modifies this`idleConn
      ensures Valid() && idleConn - {key} == old(idleConn) - {key}
      ensures old(NoRepeats()) ==> NoRepeats()
      ensures r.None? ==> key !in idleConn && forall i :: 0 <= i < |old(Idle(key))| ==> old(Idle(key))[i].broken
      ensures r.Some? ==>
                var was := old(Idle(key)); var n := |Idle(key)|;
                && n < |was| && Idle(key) == was[..n] && r.value == was[n] && !r.value.broken
                && Listed(r.value) < old(Listed(r.value))
                && (old(NoRepeats()) ==> r.value !in Idle(key))
                && forall i :: n < i < |was| ==> was[i].broken
    {
      ghost var was := Idle(key);
      while true
        invariant Valid() && idleConn - {key} == old(idleConn) - {key}
        invariant old(NoRepeats()) ==> NoRepeats()
        invariant |Idle(key)| <= |was| && Idle(key) == was[..|Idle(key)|]
        invariant forall i :: |Idle(key)| <= i < |was| ==> was[i].broken
        decreases |Idle(key)|
      {
        if key !in idleConn {
          return None;
        }
        var pc := Pop(key);
        if !pc.broken {
          OneLess(was, |Idle(key)|);
          return Some(pc);
        }
      }
    }

    /** The newest connection of a list leaves it; an empty list leaves the map. */
    method Pop(key: string) returns (pc: PersistConn)
      requires Valid() && key in idleConn
      modifies this`idleConn
      ensures Valid() && idleConn - {key} == old(idleConn) - {key}
      ensures old(NoRepeats()) ==> NoRepeats()
      ensures old(Idle(key)) == Idle(key) + [pc]
    {
      var list := idleConn[key];
      if |list| == 1 {
        pc := list[0];
        idleConn := idleConn - {key};
      } else {
        pc := list[|list| - 1];
        idleConn := idleConn[key := list[..|list| - 1]];
      }
      assert list == Idle(key) + [pc];
    }

    /** CloseIdleConnections: the cache is emptied and all it held is closed. */
    method CloseIdleConnections()
      requires Valid()
      modifies this`idleConn, set k, pc | k in idleConn && pc in idleConn[k] :: pc
      ensures Valid() && idleConn == map[]
      ensures forall k, pc :: k in old(idleConn) && pc in old(idleConn)[k] ==> pc.broken
    {
      var m := idleConn;
      idleConn := map[];
      var keys := m.Keys;
      while keys != {}
        invariant keys <= m.Keys && idleConn == map[]
        invariant forall k, pc :: k in m && k !in keys && pc in m[k] ==> pc.broken
        decreases |keys|
      {
        var k :| k in keys;
        keys := keys - {k};
        for i := 0 to |m[k]|
          invariant idleConn == map[] && forall j :: 0 <= j < i ==> m[k][j].broken
          invariant forall k', pc :: k' in m && k' !in keys && k' != k && pc in m[k'] ==> pc.broken
        {
          assert k in old(idleConn) && m[k][i] in old(idleConn)[k];
          m[k][i].Close();
        }
      }
    }
  }

  lemma OneMore(s: seq<PersistConn>, pc: PersistConn)
    ensures multiset(s + [pc])[pc] == multiset(s)[pc] + 1
    ensures Distinct(s) ==> (Distinct(s + [pc]) <==> pc !in s)
  {
    var t := s + [pc];
    assert forall i :: 0 <= i < |s| ==> t[i] == s[i];
    if pc in s {
      var i :| 0 <= i < |s| && s[i] == pc;
      assert t[i] == t[|s|];
    }
  }

  lemma OneLess(s: seq<PersistConn>, n: nat)
    requires n < |s|
    ensures multiset(s[..n])[s[n]] < multiset(s)[s[n]]
    ensures Distinct(s) ==> s[n] !in s[..n]
  {
    assert s == s[..n] + [s[n]] + s[n + 1..];
  }

  method PutTwice(t: Transport, pc: PersistConn)
    requires t.Valid() && t.Idle(pc.cacheKey) == [] && t.Max() >= 2 && !t.disableKeepAlives && t.maxIdleConnsPerHost >= 0
    requires !pc.broken
    modifies t`idleConn, pc
    ensures t.Valid() && t.Idle(pc.cacheKey) == [pc, pc] && !pc.broken
  {
    var _ := t.PutIdleConn(pc);
    var _ := t.PutIdleConn(pc);
  }

  /** What a callback that runs twice does: the cache takes the connection twice
      and gives it to two requests. */
  method HandedOutTwice(t: Transport, pc: PersistConn) returns (first: Option<PersistConn>, second: Option<PersistConn>)
    requires t.Valid() && t.Idle(pc.cacheKey) == [] && t.Max() >= 2 && !t.disableKeepAlives && t.maxIdleConnsPerHost >= 0
    requires !pc.broken
    modifies t`idleConn, pc
    ensures first == second == Some(pc)
  {
    PutTwice(t, pc);
    ghost var both := t.Idle(pc.cacheKey);
    assert !both[0].broken && !both[1].broken;
    first := t.GetIdleConn(pc.cacheKey);
    ghost var one := t.Idle(pc.cacheKey);
    assert one == both[..1] && !one[0].broken;
    second := t.GetIdleConn(pc.cacheKey);
  }
}
