/** ServeMux: the pattern table that Handle fills and the longest-pattern rule
    that match applies to it. */
module ServeMuxes {
  import opened Text

  datatype Handler = User(id: nat) | RedirectTo(url: string, code: int) | NotFound

  const MOVED_PERMANENTLY := 301

  datatype Entry = Entry(explicit: bool, h: Handler)

  type Table = map<string, Entry>

  predicate Subtree(pattern: string)
  {
    pattern != "" && pattern[|pattern| - 1] == '/'
  }

  predicate PathMatch(pattern: string, path: string)
  {
    if pattern == "" then false
    else if !Subtree(pattern) then pattern == path
    else pattern <= path
  }

  // ---------------------------------------------------------------------
  // The rule: the longest matching pattern
  // ---------------------------------------------------------------------

  /** `k` matches, and every other matching pattern is shorter. */
  predicate Wins(m: Table, path: string, k: string)
  {
    && k in m && PathMatch(k, path)
    && forall j :: j in m && j != k && PathMatch(j, path) ==> |j| < |k|
  }

  predicate NoneMatches(m: Table, path: string)
  {
    forall k :: k in m ==> !PathMatch(k, path)
  }

  /** Matching patterns are told apart by their lengths. */
  lemma SameLength(j: string, k: string, path: string)
    requires PathMatch(j, path) && PathMatch(k, path)
    ensures |j| == |k| ==> j == k
  {
    assert j == path[..|j|] && k == path[..|k|];
  }

  /** A handler as `match` must find it: that of the winner, nil without one. */
  ghost predicate Found(m: Table, path: string, h: Option<Handler>)
  {
    if h.None? then NoneMatches(m, path) else exists k :: Wins(m, path, k) && h.value == m[k].h
  }

  /** The rule leaves no choice. */
  lemma FoundOnce(m: Table, path: string, g: Option<Handler>, h: Option<Handler>)
    requires Found(m, path, g) && Found(m, path, h)
    ensures g == h
  {
    if g.Some? && h.Some? {
      var j :| Wins(m, path, j) && g.value == m[j].h;
      var k :| Wins(m, path, k) && h.value == m[k].h;
      assert j == k;
    }
  }

  // ---------------------------------------------------------------------
  // What a table must hold
  // ---------------------------------------------------------------------

  /** The table that belongs to the explicit registrations `e`: their handlers,
      and a redirect for every slashless form that is not itself registered. */
  ghost predicate Describes(m: Table, e: map<string, Handler>)
  {
    && (forall k :: k in e ==> k in m && m[k] == Entry(true, e[k]))
    && (forall k :: k in e && Subtree(k) ==> k[..|k| - 1] in m)
    && (forall k :: k in m && k !in e ==> k + "/" in e && m[k] == Entry(false, RedirectTo(k + "/", MOVED_PERMANENTLY)))
  }

  /** So the registrations fix the table, whatever their order was. */
  lemma DescribedOnce(m: Table, n: Table, e: map<string, Handler>)
    requires Describes(m, e) && Describes(n, e)
    ensures m == n
  {
    forall k | k in m ensures k in n && n[k] == m[k] {
      SameEntry(m, n, e, k);
    }
    forall k | k in n ensures k in m {
      SameEntry(n, m, e, k);
    }
  }

  lemma SameEntry(m: Table, n: Table, e: map<string, Handler>, k: string)
    requires Describes(m, e) && Describes(n, e) && k in m
    ensures k in n && n[k] == m[k]
  {
    if k !in e {
      Slashless(k);
    }
  }

  lemma Slashless(k: string)
    ensures Subtree(k + "/") && (k + "/")[..|k + "/"| - 1] == k
  {
  }

  // ---------------------------------------------------------------------
  // Registering
  // ---------------------------------------------------------------------

  datatype Outcome = Registered | InvalidPattern | NilHandler | MultipleRegistrations

  function Judge(e: map<string, Handler>, pattern: string, h: Option<Handler>): (o: Outcome)
  {
    if pattern == "" then InvalidPattern
    else if h.None? then NilHandler
    else if pattern in e then MultipleRegistrations
    else Registered
  }

  /** The explicit registrations after one more call; a call that panics adds none. */
  function After(e: map<string, Handler>, pattern: string, h: Option<Handler>): (f: map<string, Handler>)
  {
    if Judge(e, pattern, h).Registered? then e[pattern := h.value] else e
  }

  function Put(m: Table, pattern: string, h: Handler): (n: Table)
    requires pattern != ""
  {
    var n := m[pattern := Entry(true, h)];
    var short := pattern[..|pattern| - 1];
    if Subtree(pattern) && !(short in n && n[short].explicit)
    then n[short := Entry(false, RedirectTo(pattern, MOVED_PERMANENTLY))]
    else n
  }

  /** A registration gives the table of one registration more: no explicit entry
      is lost, and the redirect is there. */
  lemma PutDescribes(m: Table, e: map<string, Handler>, pattern: string, h: Handler)
    requires Describes(m, e) && pattern != "" && pattern !in e
    ensures Describes(Put(m, pattern, h), e[pattern := h])
  {
    var n, f, short := Put(m, pattern, h), e[pattern := h], pattern[..|pattern| - 1];
    if Subtree(pattern) {
      assert short + "/" == pattern;
    }
    forall k | k in n && k !in f
      ensures k + "/" in f && n[k] == Entry(false, RedirectTo(k + "/", MOVED_PERMANENTLY))
    {
      assert k == short || k in m;
    }
  }

  /** One call of Handle by a program. */
  datatype Call = Call(pattern: string, h: Option<Handler>)

  /** The explicit registrations of a run: per pattern the first valid one. */
  function Accepted(calls: seq<Call>): (e: map<string, Handler>)
  {
    if calls == [] then map[]
    else
      var last := calls[|calls| - 1];
      After(Accepted(calls[..|calls| - 1]), last.pattern, last.h)
  }

  class ServeMux {
    var m: Table
    ghost var e: map<string, Handler>

    ghost predicate Valid()
      reads this
    {
      Describes(m, e)
    }

    constructor ()
      ensures Valid() && e == map[] && m == map[]
    {
      m, e := map[], map[];
    }

    /** Handle; a panic is an outcome, and leaves the table alone. */
    method Handle(pattern: string, h: Option<Handler>) returns (o: Outcome)
      requires Valid()
      modifies this
      ensures Valid()
      ensures o == Judge(old(e), pattern, h) && e == After(old(e), pattern, h)
      ensures m == if o.Registered? then Put(old(m), pattern, h.value) else old(m)
    {
      if pattern == "" {
        return InvalidPattern;
      }
      if h.None? {
        return NilHandler;
      }
      if pattern in m && m[pattern].explicit {
        return MultipleRegistrations;
      }
      PutDescribes(m, e, pattern, h.value);
      m := m[pattern := Entry(true, h.value)];
      e := e[pattern := h.value];
      var n := |pattern|;
      if n > 0 && pattern[n - 1] == '/' && !(pattern[..n - 1] in m && m[pattern[..n - 1]].explicit) {
        m := m[pattern[..n - 1] := Entry(false, RedirectTo(pattern, MOVED_PERMANENTLY))];
      }
      return Registered;
    }

    /** match: the patterns come in any order, as a Go map gives them. */
    method Match(path: string) returns (h: Option<Handler>)
      ensures Found(m, path, h)
    {
      h := None;
      var n := 0;
      var left := m.Keys;
      ghost var best := "";
      while left != {}
        invariant left <= m.Keys
        invariant h.None? ==> forall k :: k in m && k !in left ==> !PathMatch(k, path)
        invariant h.Some? ==> best in m && best !in left && PathMatch(best, path) && n == |best| && h.value == m[best].h
        invariant h.Some? ==> forall k :: k in m && k !in left && k != best && PathMatch(k, path) ==> |k| < n
        decreases |left|
      {
        var k :| k in left;
        left := left - {k};
        if !PathMatch(k, path) {
          continue;
        }
        if h.Some? {
          SameLength(k, best, path);
        }
        if h.None? || |k| > n {
          n, h, best := |k|, Some(m[k].h), k;
        }
      }
      assert h.Some? ==> Wins(m, path, best);
    }

    /** handler: host and path first, then the path alone. */
    method HandlerFor(host: string, path: string) returns (h: Handler)
      ensures Dispatched(m, host, path, h)
    {
      var found := Match(host + path);
      if found.None? {
        found := Match(path);
      }
      if found.None? {
        return NotFound;
      }
      return found.value;
    }
  }

  /** A host's own patterns come before the general ones. */
  ghost predicate Dispatched(m: Table, host: string, path: string, h: Handler)
  {
    || Found(m, host + path, Some(h))
    || (NoneMatches(m, host + path) && Found(m, path, Some(h)))
    || (NoneMatches(m, host + path) && NoneMatches(m, path) && h == NotFound)
  }

  /** A program's registrations, one after another. */
  method RegisterAll(calls: seq<Call>) returns (mux: ServeMux)
    ensures fresh(mux) && mux.Valid() && mux.e == Accepted(calls)
  {
    mux := new ServeMux();
    for i := 0 to |calls|
      invariant fresh(mux) && mux.Valid() && mux.e == Accepted(calls[..i])
    {
      assert calls[..i + 1][..i] == calls[..i];
      var _ := mux.Handle(calls[i].pattern, calls[i].h);
    }
    assert calls[..|calls|] == calls;
  }

  // ---------------------------------------------------------------------
  // What requests get
  // ---------------------------------------------------------------------

  /** A registered path gets its own handler. */
  lemma ExactWins(m: Table, e: map<string, Handler>, path: string)
    requires Describes(m, e) && path in e && path != ""
    ensures Wins(m, path, path) && m[path].h == e[path]
  {
    assert path <= path;
    forall j | j in m && j != path && PathMatch(j, path) ensures |j| < |path| {
      SameLength(j, path, path);
    }
  }

  /** An implicit entry redirects to a registered pattern, whose own root gets the
      registered handler. */
  lemma RedirectTarget(m: Table, e: map<string, Handler>, path: string, k: string)
    requires Describes(m, e) && Wins(m, path, k) && !m[k].explicit
    ensures m[k].h == RedirectTo(k + "/", MOVED_PERMANENTLY) && k + "/" in e
    ensures Wins(m, k + "/", k + "/") && m[k + "/"].h == e[k + "/"]
  {
    ExactWins(m, e, k + "/");
  }

  /** Only slashless forms are redirected, unless a pattern ends in two slashes
      and its single-slash form is not registered: then a whole subtree is. */
  ghost predicate DoubleSlash(e: map<string, Handler>, p: string)
  {
    p in e && Subtree(p) && Subtree(p[..|p| - 1]) && p[..|p| - 1] !in e
  }

  /** `path` gets a redirect meant for the shorter path `k`. */
  ghost predicate Misdirected(m: Table, path: string, k: string)
  {
    Wins(m, path, k) && !m[k].explicit && k != path
  }

  lemma MisdirectedOnly(m: Table, e: map<string, Handler>, path: string, k: string)
    requires Describes(m, e) && Misdirected(m, path, k)
    ensures DoubleSlash(e, k + "/")
  {
    Slashless(k);
  }

  function Filler(n: nat): (s: string)
    ensures |s| == n && forall i :: 0 <= i < n ==> s[i] == 'x'
  {
    if n == 0 then "" else Filler(n - 1) + "x"
  }

  lemma {:induction false} Bounded(keys: set<string>) returns (n: nat)
    ensures forall k :: k in keys ==> |k| <= n
  {
    if keys == {} {
      n := 0;
    } else {
      var k :| k in keys;
      var b := Bounded(keys - {k});
      n := if b > |k| then b else |k|;
      assert forall j :: j in keys ==> j == k || j in keys - {k};
    }
  }

  /** A path under `k` that no other pattern reaches. */
  lemma DoubleSlashMisdirects(m: Table, e: map<string, Handler>, p: string) returns (path: string)
    requires Describes(m, e) && DoubleSlash(e, p)
    ensures Misdirected(m, path, p[..|p| - 1])
  {
    var k := p[..|p| - 1];
    var n := Bounded(m.Keys);
    path := k + Filler(n + 1);
    assert k <= path && forall i :: |k| <= i < |path| ==> path[i] == 'x';
    forall j | j in m && j != k && PathMatch(j, path) ensures |j| < |k| {
      SameLength(j, k, path);
    }
  }

  lemma MisdirectedIff(m: Table, e: map<string, Handler>)
    requires Describes(m, e)
    ensures (exists path, k :: Misdirected(m, path, k)) <==> (exists p :: DoubleSlash(e, p))
  {
    if path, k :| Misdirected(m, path, k) {
      MisdirectedOnly(m, e, path, k);
    }
    if p :| DoubleSlash(e, p) {
      var path := DoubleSlashMisdirects(m, e, p);
    }
  }

  /** Patterns rooted at "/" never answer for a host. */
  lemma HostSpecific(m: Table, host: string, path: string, k: string)
    requires host != "" && host[0] != '/' && Wins(m, host + path, k)
    ensures k[0] == host[0]
  {
    assert k <= host + path;
    assert (host + path)[0] == host[0];
  }
}
