/** Where the implicit redirects of ServeMux lead: Redirect makes its target
    absolute and cleans it. Targets are those without a scheme. */
module Redirects {
  import opened Text
  import opened ServeMuxes

  // ---------------------------------------------------------------------
  // path.Clean and path.Split, for rooted paths
  // ---------------------------------------------------------------------

  predicate Rooted(p: string)
  {
    p != "" && p[0] == '/'
  }

  function WithSlash(x: string): (s: string)
  {
    x + "/"
  }

  /** Elements, each followed by a slash. */
  function Slashed(xs: seq<string>): (s: string)
  {
    Flat(WithSlash, xs)
  }

  predicate Proper(x: string)
  {
    x != "" && x != "." && x != ".."
  }

  predicate AllProper(xs: seq<string>)
  {
    forall i :: 0 <= i < |xs| ==> Proper(xs[i])
  }

  /** One element: empty ones and "." go, ".." takes the one before with it. */
  function Push(stack: seq<string>, x: string): (r: seq<string>)
  {
    if x == "" || x == "." then stack
    else if x == ".." then if stack == [] then [] else stack[..|stack| - 1]
    else stack + [x]
  }

  function Reduce(stack: seq<string>, xs: seq<string>): (r: seq<string>)
    decreases |xs|
  {
    if xs == [] then stack else Reduce(Push(stack, xs[0]), xs[1..])
  }

  function Elements(p: string): (xs: seq<string>)
    requires Rooted(p)
  {
    Split(p[1..], '/')
  }

  /** The cleaned path with a slash at its end. */
  function CleanSlashed(p: string): (r: string)
    requires Rooted(p)
    ensures Rooted(r)
  {
    "/" + Slashed(Reduce([], Elements(p)))
  }

  /** path.Clean of a rooted path: no slash at the end, but for the root. */
  function Clean(p: string): (r: string)
    requires Rooted(p)
    ensures Rooted(r)
  {
    var r := CleanSlashed(p);
    if |r| == 1 then r else r[..|r| - 1]
  }

  /** path.Split's directory: all up to the last slash. */
  function Dir(p: string): (d: string)
    ensures d <= p
    ensures Rooted(p) ==> Rooted(d)
  {
    if p == "" || p[|p| - 1] == '/' then p else Dir(p[..|p| - 1])
  }

  // ---------------------------------------------------------------------
  // Redirect
  // ---------------------------------------------------------------------

  function Absolute(path: string, url: string): (u: string)
    requires Rooted(path)
    ensures Rooted(u)
  {
    if url == "" || url[0] != '/' then Dir(path) + url else url
  }

  /** Before the first question mark. */
  function PathOf(url: string): (p: string)
    ensures '?' !in p && p <= url
  {
    var i := IndexOf(url, '?');
    if i < 0 then url else url[..i]
  }

  function CleanKeepingSlash(p: string): (r: string)
    requires Rooted(p)
    ensures Rooted(r)
  {
    var c := Clean(p);
    if p[|p| - 1] == '/' && c[|c| - 1] != '/' then c + "/" else c
  }

  function HexValue(c: char): (v: int)
  {
    if '0' <= c <= '9' then c as int - '0' as int
    else if 'a' <= c <= 'f' then c as int - 'a' as int + 10
    else if 'A' <= c <= 'F' then c as int - 'A' as int + 10
    else -1
  }

  /** url.unescape of a path: a bad escape is an error. */
  function Unescape(s: string): (r: Option<string>)
    decreases |s|
  {
    if s == "" then Some("")
    else if s[0] != '%' then
      var tail := Unescape(s[1..]);
      if tail.None? then None else Some([s[0]] + tail.value)
    else if |s| < 3 || HexValue(s[1]) < 0 || HexValue(s[2]) < 0 then None
    else
      var tail := Unescape(s[3..]);
      if tail.None? then None else Some([(HexValue(s[1]) * 16 + HexValue(s[2])) as char] + tail.value)
  }

  lemma {:induction false} UnescapeShorter(s: string)
    requires Unescape(s).Some?
    ensures var r := Unescape(s).value; |r| <= |s| && (|r| == |s| ==> '%' !in s && r == s)
    decreases |s|
  {
    if s != "" {
      if s[0] != '%' {
        UnescapeShorter(s[1..]);
        Cons(s);
      } else {
        UnescapeShorter(s[3..]);
      }
    }
  }

  lemma {:induction false} UnescapePlain(s: string)
    requires '%' !in s
    ensures Unescape(s) == Some(s)
    decreases |s|
  {
    if s != "" {
      assert s[0] != '%';
      UnescapePlain(s[1..]);
      Cons(s);
    }
  }

  function BeforeHash(url: string): (u: string)
    ensures '#' !in u && u <= url
  {
    var i := IndexOf(url, '#');
    if i < 0 then url else url[..i]
  }

  /** url.Parse accepts the text: the escapes of its path and its fragment are good. */
  predicate Parses(url: string)
  {
    var u := BeforeHash(url);
    Unescape(PathOf(u)).Some? && Unescape(url[|u|..]).Some?
  }

  /** The Location header Redirect sends for a request of `path`; what does not
      parse is sent as it is. */
  function Location(path: string, url: string): (l: string)
    requires Rooted(path)
  {
    if !Parses(url) then url
    else
      var u := Absolute(path, url);
      var p := PathOf(u);
      PathRooted(u);
      CleanKeepingSlash(p) + u[|p|..]
  }

  /** The path that a client following a Location asks for. */
  function Asked(path: string, l: string): (q: Option<string>)
    requires Rooted(path)
  {
    Unescape(PathOf(BeforeHash(Absolute(path, l))))
  }

  lemma PathRooted(u: string)
    requires Rooted(u)
    ensures Rooted(PathOf(u))
  {
    var i := IndexOf(u, '?');
    assert i != 0;
  }

  /** The redirect leads to the root of the pattern it is for. */
  predicate Lands(path: string, p: string)
    requires Rooted(path)
  {
    Asked(path, Location(path, p)) == Some(p)
  }

  // ---------------------------------------------------------------------
  // Elements and slashes
  // ---------------------------------------------------------------------

  predicate NoSlashes(xs: seq<string>)
  {
    forall i :: 0 <= i < |xs| ==> '/' !in xs[i]
  }

  lemma SplitOne(x: string, s: string, ys: seq<string>)
    requires '/' !in x && Split(s, '/') == ys + [""]
    ensures Split(x + "/" + s, '/') == [x] + ys + [""]
  {
    SplitStep(x, '/', s);
    assert x + "/" + s == x + ['/'] + s;
    Assoc([x], ys, [""]);
  }

  lemma {:induction false} SplitSlashed(xs: seq<string>)
    requires NoSlashes(xs)
    ensures Split(Slashed(xs), '/') == xs + [""]
  {
    if xs == [] {
      assert Slashed(xs) == "" && Split("", '/') == [""];
    } else {
      assert '/' !in xs[0];
      SplitSlashed(xs[1..]);
      SplitOne(xs[0], Slashed(xs[1..]), xs[1..]);
      Cons(xs);
    }
  }

  lemma NoSlashesCons(x: string, ys: seq<string>)
    requires '/' !in x && NoSlashes(ys)
    ensures NoSlashes([x] + ys)
  {
  }

  lemma {:induction false} SplitNoSlashes(s: string)
    ensures NoSlashes(Split(s, '/'))
    decreases |s|
  {
    var i := IndexOf(s, '/');
    if i >= 0 {
      SplitNoSlashes(s[i + 1..]);
      NoSlashesCons(s[..i], Split(s[i + 1..], '/'));
    }
  }

  /** Nothing, or a text that ends in a slash. */
  predicate EndsSlashed(s: string)
  {
    s == "" || s[|s| - 1] == '/'
  }

  lemma SplitCut(s: string)
    requires EndsSlashed(s) && s != ""
    ensures var i := IndexOf(s, '/');
            i >= 0 && EndsSlashed(s[i + 1..]) && Split(s, '/') == [s[..i]] + Split(s[i + 1..], '/')
            && s == s[..i] + "/" + s[i + 1..]
  {
    var i := IndexOf(s, '/');
    assert s[|s| - 1] in s;
    assert s == s[..i] + [s[i]] + s[i + 1..];
  }

  /** All but the last element, which is empty. */
  predicate Spelled(ys: seq<string>, s: string)
  {
    ys != [] && ys[|ys| - 1] == "" && Slashed(ys[..|ys| - 1]) == s
  }

  /** A text that ends in a slash is its elements, each with a slash. */
  lemma {:induction false} SlashedSplit(s: string)
    requires EndsSlashed(s)
    ensures Spelled(Split(s, '/'), s)
    decreases |s|
  {
    if s == "" {
      assert Split(s, '/') == [""];
    } else {
      var i := IndexOf(s, '/');
      SplitCut(s);
      SlashedSplit(s[i + 1..]);
      SlashedMore(s[..i], Split(s[i + 1..], '/'), s[i + 1..]);
    }
  }

  lemma SlashedMore(x: string, ys: seq<string>, tail: string)
    requires Spelled(ys, tail)
    ensures Spelled([x] + ys, x + "/" + tail)
  {
    var xs := [x] + ys;
    assert xs[..|xs| - 1] == [x] + ys[..|ys| - 1];
    FlatCons(WithSlash, x, ys[..|ys| - 1]);
  }

  lemma SlashedInjective(xs: seq<string>, ys: seq<string>)
    requires NoSlashes(xs) && NoSlashes(ys) && Slashed(xs) == Slashed(ys)
    ensures xs == ys
  {
    SplitSlashed(xs);
    SplitSlashed(ys);
    assert (xs + [""])[..|xs|] == xs && (ys + [""])[..|ys|] == ys;
  }

  lemma {:induction false} ReduceProper(stack: seq<string>, xs: seq<string>)
    requires AllProper(stack) && NoSlashes(stack) && NoSlashes(xs)
    ensures AllProper(Reduce(stack, xs)) && NoSlashes(Reduce(stack, xs))
    ensures AllProper(xs) ==> Reduce(stack, xs) == stack + xs
    decreases |xs|
  {
    if xs == [] {
      assert stack + xs == stack;
    } else {
      assert '/' !in xs[0];
      ReduceProper(Push(stack, xs[0]), xs[1..]);
      if AllProper(xs) {
        assert Proper(xs[0]);
        assert stack + [xs[0]] + xs[1..] == stack + xs;
      }
    }
  }

  lemma {:induction false} ReduceAppend(stack: seq<string>, xs: seq<string>, x: string)
    ensures Reduce(stack, xs + [x]) == Push(Reduce(stack, xs), x)
    decreases |xs|
  {
    if xs == [] {
      assert xs + [x] == [x] && [x][1..] == [];
    } else {
      assert (xs + [x])[0] == xs[0] && (xs + [x])[1..] == xs[1..] + [x];
      ReduceAppend(Push(stack, xs[0]), xs[1..], x);
    }
  }

  /** A rooted path of these elements, with a slash at its end. */
  function Tree(xs: seq<string>): (p: string)
    ensures Subtree(p) && Rooted(p)
  {
    SlashLast(xs);
    "/" + Slashed(xs)
  }

  lemma SlashLast(xs: seq<string>)
    ensures xs != [] ==> Slashed(xs) != "" && Slashed(xs)[|Slashed(xs)| - 1] == '/'
  {
    if xs != [] {
      FlatStep(WithSlash, xs, |xs| - 1);
      assert xs[..|xs|] == xs;
    }
  }

  lemma TreeElements(xs: seq<string>)
    requires NoSlashes(xs)
    ensures Elements(Tree(xs)) == xs + [""] && CleanSlashed(Tree(xs)) == Tree(Reduce([], xs))
  {
    assert Tree(xs)[1..] == Slashed(xs);
    SplitSlashed(xs);
    ReduceAppend([], xs, "");
  }

  /** Cleaning, and putting the slash back, gives the reduced tree. */
  lemma TreeCleans(xs: seq<string>)
    requires NoSlashes(xs)
    ensures CleanKeepingSlash(Tree(xs)) == Tree(Reduce([], xs))
  {
    TreeElements(xs);
    ReduceProper([], xs);
    SlashBack(Tree(xs), Reduce([], xs));
  }

  lemma SlashBack(p: string, ys: seq<string>)
    requires Rooted(p) && Subtree(p) && CleanSlashed(p) == Tree(ys) && AllProper(ys) && NoSlashes(ys)
    ensures CleanKeepingSlash(p) == Tree(ys)
  {
    var r := Tree(ys);
    if ys == [] {
      assert r == "/";
    } else {
      NoDoubleEnd(ys);
      assert r == r[..|r| - 1] + "/";
    }
  }

  lemma {:induction false} NoDoubleEnd(ys: seq<string>)
    requires ys != [] && AllProper(ys) && NoSlashes(ys)
    ensures var r := "/" + Slashed(ys); |r| > 1 && r[|r| - 1] == '/' && r[|r| - 2] != '/'
  {
    var init, last := ys[..|ys| - 1], ys[|ys| - 1];
    FlatStep(WithSlash, ys, |ys| - 1);
    assert ys[..|ys|] == ys;
    assert Slashed(ys) == Slashed(init) + (last + "/");
    assert Proper(last) && '/' !in last;
    var r := "/" + Slashed(ys);
    assert r[|r| - 2] == last[|last| - 1];
  }

  // ---------------------------------------------------------------------
  // When a redirect lands
  // ---------------------------------------------------------------------

  /** A pattern for a subtree whose elements are all proper. */
  predicate CleanTree(p: string)
  {
    Rooted(p) && Subtree(p) && var xs := Elements(p); AllProper(xs[..|xs| - 1])
  }

  /** A rooted subtree pattern is the tree of its elements. */
  lemma TreeOf(p: string) returns (xs: seq<string>)
    requires Rooted(p) && Subtree(p)
    ensures NoSlashes(xs) && p == Tree(xs) && (CleanTree(p) <==> AllProper(xs))
  {
    var s := p[1..];
    assert p == "/" + s && EndsSlashed(s);
    xs := Spelling(s);
  }

  lemma NoSlashesInit(es: seq<string>)
    requires NoSlashes(es) && es != []
    ensures NoSlashes(es[..|es| - 1])
  {
  }

  lemma Spelling(s: string) returns (xs: seq<string>)
    requires EndsSlashed(s)
    ensures var es := Split(s, '/'); xs == es[..|es| - 1] && NoSlashes(xs) && Slashed(xs) == s
  {
    var es := Split(s, '/');
    SlashedSplit(s);
    SplitNoSlashes(s);
    NoSlashesInit(es);
    xs := es[..|es| - 1];
  }

  lemma NoEscapes(u: string)
    requires '%' !in u
    ensures Parses(u)
  {
    var b := BeforeHash(u);
    UnescapePlain(PathOf(b));
    UnescapePlain(u[|b|..]);
  }

  lemma TreeLocation(path: string, xs: seq<string>)
    requires Rooted(path) && NoSlashes(xs) && '?' !in Tree(xs) && '%' !in Tree(xs)
    ensures Location(path, Tree(xs)) == Tree(Reduce([], xs))
  {
    var p, l := Tree(xs), Tree(Reduce([], xs));
    NoEscapes(p);
    assert PathOf(p) == p && p[|p|..] == "";
    TreeCleans(xs);
    assert l + "" == l;
  }

  /** No character that means something in a URL. */
  predicate Bare(p: string)
  {
    '?' !in p && '#' !in p && '%' !in p
  }

  /** What is asked for is shorter than what was sent, but for bare paths. */
  lemma AskedLength(path: string, l: string)
    requires Rooted(path) && Rooted(l) && Asked(path, l).Some?
    ensures var q := Asked(path, l).value; |q| <= |l| && (|q| == |l| ==> q == l && Bare(l))
  {
    assert Absolute(path, l) == l;
    UnescapeShorter(PathOf(BeforeHash(l)));
  }

  lemma AskedRooted(path: string, l: string)
    requires Rooted(path) && Asked(path, l).Some?
    ensures Rooted(Asked(path, l).value)
  {
    var u := Absolute(path, l);
    assert IndexOf(u, '#') != 0;
    PathRooted(BeforeHash(u));
  }

  lemma {:induction false} SlashedLength(s: string)
    ensures |Slashed(Split(s, '/'))| == |s| + 1
    decreases |s|
  {
    var i := IndexOf(s, '/');
    if i < 0 {
      FlatOne(WithSlash, s);
    } else {
      SlashedLength(s[i + 1..]);
      FlatCons(WithSlash, s[..i], Split(s[i + 1..], '/'));
    }
  }

  lemma CleanSlashedShort(a: string)
    requires Rooted(a)
    ensures |CleanSlashed(a)| <= |a| + 1
  {
    SlashedLength(a[1..]);
    Shorter([], Elements(a));
  }

  lemma CleanTreeShort(a: string)
    requires Rooted(a) && Subtree(a)
    ensures |CleanSlashed(a)| <= |a|
  {
    var s := a[1..];
    assert a == "/" + s && EndsSlashed(s);
    var xs := Spelling(s);
    SlashedSplit(s);
    var es := Split(s, '/');
    assert es == xs + [""];
    ReduceAppend([], xs, "");
    Shorter([], xs);
  }

  /** Of the cleaned path with its slash, all is kept or all but the slash. */
  lemma KeptLength(a: string, n: nat)
    requires Rooted(a) && |CleanSlashed(a)| == n
    ensures |CleanKeepingSlash(a)| <= n && (!Subtree(a) ==> |CleanKeepingSlash(a)| < n || n == 1)
  {
    var c := Clean(a);
    assert |c| == if n == 1 then 1 else n - 1;
  }

  /** Cleaning never lengthens a path. */
  lemma CleanShort(a: string)
    requires Rooted(a)
    ensures |CleanKeepingSlash(a)| <= |a|
  {
    KeptLength(a, |CleanSlashed(a)|);
    if Subtree(a) {
      CleanTreeShort(a);
    } else {
      CleanSlashedShort(a);
    }
  }

  lemma LocationLength(path: string, p: string)
    requires Rooted(path) && Rooted(p)
    ensures Rooted(Location(path, p)) && |Location(path, p)| <= |p|
  {
    if Parses(p) {
      PathRooted(p);
      CleanShort(PathOf(p));
    }
  }

  lemma BareLands(path: string, p: string)
    requires Rooted(path) && Rooted(p) && Subtree(p) && Bare(p)
    ensures Lands(path, p) <==> CleanTree(p)
  {
    var xs := TreeOf(p);
    TreeLocation(path, xs);
    ReduceProper([], xs);
    if AllProper(xs) {
      assert [] + xs == xs;
      UnescapePlain(p);
      assert Asked(path, p) == Some(p);
    } else if Lands(path, p) {
      LocationLength(path, p);
      AskedLength(path, Location(path, p));
      assert Slashed(xs) == p[1..] && Slashed(Reduce([], xs)) == Location(path, p)[1..];
      SlashedInjective(xs, Reduce([], xs));
    }
  }

  /** An implicit redirect leads where it should, exactly if the pattern is rooted,
      holds no '?', '#' or '%', and no empty, "." or ".." element. */
  lemma RedirectLandsIff(path: string, p: string)
    requires Rooted(path) && Subtree(p)
    ensures Lands(path, p) <==> Rooted(p) && Bare(p) && CleanTree(p)
  {
    var l := Location(path, p);
    if Rooted(p) && Bare(p) {
      BareLands(path, p);
    } else if Lands(path, p) {
      AskedRooted(path, l);
      LocationLength(path, p);
      AskedLength(path, l);
    }
  }

  lemma {:induction false} Shorter(stack: seq<string>, xs: seq<string>)
    ensures |Slashed(Reduce(stack, xs))| <= |Slashed(stack)| + |Slashed(xs)|
    decreases |xs|
  {
    if xs != [] {
      var x := xs[0];
      Shorter(Push(stack, x), xs[1..]);
      FlatAppend(WithSlash, stack, [x]);
      FlatOne(WithSlash, x);
      if stack != [] {
        FlatStep(WithSlash, stack, |stack| - 1);
        assert stack[..|stack|] == stack;
      }
    }
  }

  /** Where it lands, the registered handler answers. */
  lemma LandedHandler(m: Table, e: map<string, Handler>, path: string, k: string)
    requires Describes(m, e) && Wins(m, path, k) && !m[k].explicit && Rooted(path) && Lands(path, k + "/")
    ensures var q := Asked(path, Location(path, k + "/")); q.Some? && Wins(m, q.value, q.value) && m[q.value].h == e[k + "/"]
  {
    RedirectTarget(m, e, path, k);
  }

  /** A pattern that ends in two slashes redirects to the path it redirects from. */
  lemma DoubleSlashLoops(path: string, xs: seq<string>)
    requires Rooted(path) && NoSlashes(xs) && AllProper(xs) && Bare(Tree(xs))
    ensures Location(path, Tree(xs) + "/") == Tree(xs) && Asked(path, Tree(xs)) == Some(Tree(xs))
  {
    UnescapePlain(Tree(xs));
    var ys := xs + [""];
    FlatAppend(WithSlash, xs, [""]);
    FlatOne(WithSlash, "");
    Assoc("/", Slashed(xs), "/");
    assert Tree(xs) + "/" == Tree(ys) && NoSlashes(ys);
    TreeLocation(path, ys);
    ReduceAppend([], xs, "");
    ReduceProper([], xs);
    assert [] + xs == xs;
  }

  // ---------------------------------------------------------------------
  // Host patterns
  // ---------------------------------------------------------------------

  lemma HostPath(host: string, dir: seq<string>, last: string)
    requires '/' !in last
    ensures var path := "/" + Slashed(dir) + last;
            && Dir(path) == "/" + Slashed(dir) && path + "/" == "/" + Slashed(dir + [last])
            && Dir(path) + (host + path + "/") == Tree(dir + [host] + (dir + [last]))
  {
    var path, xs := "/" + Slashed(dir) + last, dir + [last];
    FlatAppend(WithSlash, dir, [last]);
    FlatOne(WithSlash, last);
    assert path + "/" == "/" + Slashed(xs) by {
      Assoc("/", Slashed(dir), last);
      Assoc("/", Slashed(dir) + last, "/");
      Assoc(Slashed(dir), last, "/");
    }
    DirOf("/" + Slashed(dir), last, dir);
    Assoc(host, path, "/");
    Assoc(host, "/", Slashed(xs));
    HostTree(host, dir, last);
  }

  lemma RelativeLocation(path: string, p: string, u: string)
    requires Rooted(path) && p != "" && p[0] != '/' && Dir(path) + p == u && Bare(u) && CleanKeepingSlash(u) == u
    ensures Location(path, p) == u
  {
    NoEscapes(p);
    assert PathOf(u) == u && u[|u|..] == "" && u + "" == u;
  }

  /** The pattern "host/a/b/", asked for as /a/b on that host, sends the client to
      "/a/host/a/b/": the host becomes an element of the path. */
  lemma HostPatternMisses(host: string, dir: seq<string>, last: string)
    requires Proper(host) && '/' !in host && Bare(host)
    requires AllProper(dir + [last]) && NoSlashes(dir + [last]) && Bare(Slashed(dir + [last]))
    ensures var path := "/" + Slashed(dir) + last; var p := host + path + "/";
            && Rooted(path)
            && Location(path, p) == Tree(dir + [host] + (dir + [last]))
            && host + Location(path, p) != p && !Lands(path, p)
  {
    var path := "/" + Slashed(dir) + last;
    var p, u := host + path + "/", Tree(dir + [host] + (dir + [last]));
    assert (dir + [last])[|dir|] == last;
    HostPath(host, dir, last);
    HostClean(host, dir, last);
    assert p[0] == host[0] && host[0] in host;
    RelativeLocation(path, p, u);
    assert |u| == |Dir(path)| + |p|;
    RedirectLandsIff(path, p);
  }

  lemma DirOf(d: string, last: string, dir: seq<string>)
    requires d == "/" + Slashed(dir) && '/' !in last
    ensures Dir(d + last) == d
    decreases |last|
  {
    if last == "" {
      SlashLast(dir);
      assert d + last == d;
    } else {
      var s := d + last;
      assert s[|s| - 1] == last[|last| - 1] && s[..|s| - 1] == d + last[..|last| - 1];
      DirOf(d, last[..|last| - 1], dir);
    }
  }

  lemma HostTree(host: string, dir: seq<string>, last: string)
    ensures Tree(dir + [host] + (dir + [last])) == "/" + Slashed(dir) + (host + "/" + Slashed(dir + [last]))
  {
    FlatAppend(WithSlash, dir + [host], dir + [last]);
    FlatAppend(WithSlash, dir, [host]);
    FlatOne(WithSlash, host);
    Assoc(Slashed(dir), host + "/", Slashed(dir + [last]));
    Assoc("/", Slashed(dir), host + "/" + Slashed(dir + [last]));
  }

  lemma HostClean(host: string, dir: seq<string>, last: string)
    requires Proper(host) && '/' !in host && Bare(host)
    requires AllProper(dir + [last]) && NoSlashes(dir + [last]) && Bare(Slashed(dir + [last]))
    ensures var ys := dir + [host] + (dir + [last]);
            CleanKeepingSlash(Tree(ys)) == Tree(ys) && Bare(Tree(ys))
  {
    var xs := dir + [last];
    var ys := dir + [host] + xs;
    forall i | 0 <= i < |dir| ensures Proper(dir[i]) && '/' !in dir[i] {
      assert dir[i] == xs[i];
    }
    assert AllProper(ys) && NoSlashes(ys);
    TreeCleans(ys);
    ReduceProper([], ys);
    assert [] + ys == ys;
    HostTree(host, dir, last);
    FlatAppend(WithSlash, dir, [last]);
  }
}
