/** Octet strings as the Go code handles them: every character of a `string`
    stands for one octet of the wire or of a Go string. */
module Text {
  datatype Option<+T> = None | Some(value: T)

  const CRLF := "\r\n"

  /** Index of the first `c` in `s`, or -1. */
  function IndexOf(s: string, c: char): (i: int)
    ensures -1 <= i < |s|
    ensures i >= 0 ==> s[i] == c && c !in s[..i]
    ensures i < 0 <==> c !in s
  {
    if s == "" then -1
    else if s[0] == c then 0
    else
      var j := IndexOf(s[1..], c);
      assert j >= 0 ==> s[..j + 1] == [s[0]] + s[1..][..j];
      if j < 0 then -1 else j + 1
  }

  /** A prefix free of `c` followed by `c` fixes the first index. */
  lemma IndexOfSplit(a: string, c: char, b: string)
    requires c !in a
    ensures IndexOf(a + [c] + b, c) == |a|
  {
    var s := a + [c] + b;
    assert s[|a|] == c;
    assert forall k :: 0 <= k < |a| ==> s[k] == a[k];
  }

  /** Drops the longest suffix made of characters of `cut`. */
  function TrimRight(s: string, cut: set<char>): (r: string)
    ensures r <= s
  {
    if s != "" && s[|s| - 1] in cut then TrimRight(s[..|s| - 1], cut) else s
  }

  /** Drops the longest prefix made of characters of `cut`. */
  function TrimLeft(s: string, cut: set<char>): (r: string)
    ensures |r| <= |s|
  {
    if s != "" && s[0] in cut then TrimLeft(s[1..], cut) else s
  }

  const SPACES := {' ', '\t', '\n', '\r', '\U{0b}', '\U{0c}'}

  /** Go's strings.TrimSpace on ASCII text. */
  function TrimSpace(s: string): (r: string)
    ensures |r| <= |s|
  {
    TrimRight(TrimLeft(s, SPACES), SPACES)
  }

  /** What is already trimmed is left alone. */
  lemma TrimSpaceIdentity(s: string)
    requires s != "" ==> s[0] !in SPACES && s[|s| - 1] !in SPACES
    ensures TrimSpace(s) == s
  {
    assert TrimLeft(s, SPACES) == s;
  }

  lemma {:induction false} TrimRightExact(a: string, tail: string, cut: set<char>)
    requires a != "" ==> a[|a| - 1] !in cut
    requires forall k :: 0 <= k < |tail| ==> tail[k] in cut
    ensures TrimRight(a + tail, cut) == a
    decreases |tail|
  {
    var s := a + tail;
    if tail == "" {
      assert s == a;
    } else {
      assert s[|s| - 1] == tail[|tail| - 1];
      assert s[..|s| - 1] == a + tail[..|tail| - 1];
      TrimRightExact(a, tail[..|tail| - 1], cut);
    }
  }

  lemma {:induction false} TrimLeftExact(lead: string, a: string, cut: set<char>)
    requires a != "" ==> a[0] !in cut
    requires forall k :: 0 <= k < |lead| ==> lead[k] in cut
    ensures TrimLeft(lead + a, cut) == a
    decreases |lead|
  {
    var s := lead + a;
    if lead == "" {
      assert s == a;
    } else {
      assert s[0] == lead[0] && s[1..] == lead[1..] + a;
      TrimLeftExact(lead[1..], a, cut);
    }
  }

  lemma TrimRightEnds(s: string, cut: set<char>)
    ensures var r := TrimRight(s, cut); r != "" ==> r[|r| - 1] !in cut
  {
  }

  lemma TrimLeftEnds(s: string, cut: set<char>)
    ensures var r := TrimLeft(s, cut); r == s[|s| - |r|..] && (r != "" ==> r[0] !in cut)
  {
  }

  lemma TrimSpaceEnds(s: string)
    ensures var r := TrimSpace(s); r != "" ==> r[0] !in SPACES && r[|r| - 1] !in SPACES
    ensures forall c :: c in TrimSpace(s) ==> c in s
  {
    TrimLeftEnds(s, SPACES);
    TrimRightEnds(TrimLeft(s, SPACES), SPACES);
  }

  lemma TrimSpaceLeading(s: string)
    requires s != "" && s[0] !in SPACES && s[|s| - 1] !in SPACES
    ensures TrimSpace(" " + s) == s
  {
    TrimLeftExact(" ", s, SPACES);
    TrimRightExact(s, "", SPACES);
    assert s + "" == s;
  }

  lemma Assoc<T>(a: seq<T>, b: seq<T>, c: seq<T>)
    ensures a + b + c == a + (b + c)
  {
  }

  lemma TakeAll<T>(s: seq<T>)
    ensures s[..|s|] == s
  {
  }

  lemma TakeNone<T>(s: seq<T>)
    ensures s[..0] == []
  {
  }

  lemma Cons<T>(s: seq<T>)
    requires s != []
    ensures [s[0]] + s[1..] == s
  {
  }

  lemma Unconsed<T>(x: T, s: seq<T>)
    ensures ([x] + s)[0] == x && ([x] + s)[1..] == s
  {
  }

  /** The concatenation of a list of strings. */
  function Concat(pieces: seq<string>): (r: string)
  {
    if pieces == [] then "" else pieces[0] + Concat(pieces[1..])
  }

  lemma {:induction false} ConcatAppend(a: seq<string>, b: seq<string>)
    ensures Concat(a + b) == Concat(a) + Concat(b)
  {
    if a == [] {
      assert a + b == b;
    } else {
      ConcatAppend(a[1..], b);
      assert (a + b)[1..] == a[1..] + b;
      Assoc(a[0], Concat(a[1..]), Concat(b));
    }
  }

  lemma ConcatOne(a: seq<string>, x: string)
    ensures Concat(a + [x]) == Concat(a) + x
  {
    ConcatAppend(a, [x]);
    assert Concat([x]) == x + Concat([]);
  }

  /** What a function gives for the items of a list, one after another. */
  function Flat<A, B>(f: A -> seq<B>, xs: seq<A>): (r: seq<B>)
  {
    if xs == [] then [] else f(xs[0]) + Flat(f, xs[1..])
  }

  lemma {:induction false} FlatAppend<A, B>(f: A -> seq<B>, a: seq<A>, b: seq<A>)
    ensures Flat(f, a + b) == Flat(f, a) + Flat(f, b)
  {
    if a == [] {
      assert a + b == b;
    } else {
      FlatAppend(f, a[1..], b);
      assert (a + b)[1..] == a[1..] + b;
      Assoc(f(a[0]), Flat(f, a[1..]), Flat(f, b));
    }
  }

  lemma FlatOne<A, B>(f: A -> seq<B>, x: A)
    ensures Flat(f, [x]) == f(x)
  {
    assert [x][1..] == [];
    assert Flat(f, []) == [];
  }

  lemma FlatStep<A, B>(f: A -> seq<B>, xs: seq<A>, i: nat)
    requires i < |xs|
    ensures Flat(f, xs[..i + 1]) == Flat(f, xs[..i]) + f(xs[i])
  {
    assert xs[..i + 1] == xs[..i] + [xs[i]];
    FlatAppend(f, xs[..i], [xs[i]]);
    FlatOne(f, xs[i]);
  }

  lemma FlatCons<A, B>(f: A -> seq<B>, x: A, xs: seq<A>)
    ensures Flat(f, [x] + xs) == f(x) + Flat(f, xs)
  {
    assert ([x] + xs)[1..] == xs;
  }

  /** Going through two functions, or once through their composition. */
  lemma {:induction false} FlatCompose<A, B, C>(f: A -> seq<B>, g: B -> seq<C>, h: A -> seq<C>, xs: seq<A>)
    requires forall x :: x in xs ==> h(x) == Flat(g, f(x))
    ensures Flat(h, xs) == Flat(g, Flat(f, xs))
  {
    if xs != [] {
      FlatCompose(f, g, h, xs[1..]);
      FlatAppend(g, f(xs[0]), Flat(f, xs[1..]));
    }
  }

  function UpperChar(c: char): (r: char)
  {
    if 'a' <= c <= 'z' then (c as int - 32) as char else c
  }

  /** strings.ToUpper on ASCII text. */
  function ToUpper(s: string): (r: string)
    ensures |r| == |s|
  {
    seq(|s|, i requires 0 <= i < |s| => UpperChar(s[i]))
  }

  function LowerChar(c: char): (r: char)
  {
    if 'A' <= c <= 'Z' then (c as int + 32) as char else c
  }

  /** strings.ToLower on ASCII text. */
  function ToLower(s: string): (r: string)
    ensures |r| == |s|
  {
    seq(|s|, i requires 0 <= i < |s| => LowerChar(s[i]))
  }

  /** Lower-case letters only: trimming and lowering leave such a word alone. */
  predicate LowerWord(s: string)
  {
    forall i :: 0 <= i < |s| ==> 'a' <= s[i] <= 'z'
  }

  lemma LowerWordStays(s: string)
    requires LowerWord(s)
    ensures TrimSpace(s) == s && ToLower(s) == s && ',' !in s
  {
    TrimSpaceIdentity(s);
  }

  /** strings.Split with a one-character separator. */
  function Split(s: string, c: char): (parts: seq<string>)
    ensures |parts| >= 1
    decreases |s|
  {
    var i := IndexOf(s, c);
    if i < 0 then [s] else [s[..i]] + Split(s[i + 1..], c)
  }

  lemma SplitStep(a: string, c: char, b: string)
    requires c !in a
    ensures Split(a + [c] + b, c) == [a] + Split(b, c)
  {
    IndexOfSplit(a, c, b);
    var s := a + [c] + b;
    assert s[..|a|] == a && s[|a| + 1..] == b;
  }

  /** strings.Contains. */
  predicate Contains(s: string, t: string)
  {
    t <= s || (s != "" && Contains(s[1..], t))
  }
}
