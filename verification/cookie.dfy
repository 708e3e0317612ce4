/** Cookies: the Cookie header that AddCookie builds and readCookies takes apart
    (section 5.4 of RFC 6265). Text is ASCII. */
module Cookies {
  import opened Text

  datatype Cookie = Cookie(name: string, value: string)

  /** The text this model is about. Outside it, the code checks the characters of
      a name modulo 256 and trims the spaces of Unicode. */
  predicate Ascii(s: string)
  {
    forall i :: 0 <= i < |s| ==> s[i] as int < 128
  }

  predicate IsSeparator(c: char)
  {
    c == '(' || c == ')' || c == '<' || c == '>' || c == '@' || c == ',' || c == ';' || c == ':' || c == '\\' || c == '"'
    || c == '/' || c == '[' || c == ']' || c == '?' || c == '=' || c == '{' || c == '}' || c == ' ' || c == '\t'
  }

  predicate IsToken(c: char)
  {
    32 <= c as int < 127 && !IsSeparator(c)
  }

  predicate IsCookieByte(c: char)
  {
    var b := c as int;
    b == 0x21 || 0x23 <= b <= 0x2b || 0x2d <= b <= 0x3a || 0x3c <= b <= 0x5b || 0x5d <= b <= 0x7e
  }

  predicate IsCookieNameValid(s: string)
  {
    forall i :: 0 <= i < |s| ==> IsToken(s[i])
  }

  predicate CookieBytes(s: string)
  {
    forall i :: 0 <= i < |s| ==> IsCookieByte(s[i])
  }

  function Replaced(s: string, from: set<char>, to: char): (r: string)
    ensures |r| == |s|
  {
    seq(|s|, i requires 0 <= i < |s| => if s[i] in from then to else s[i])
  }

  function SanitizeName(s: string): (r: string) { Replaced(s, {'\n', '\r'}, '-') }

  function SanitizeValue(s: string): (r: string) { Replaced(s, {'\n', '\r', ';'}, ' ') }

  function Unquote(v: string): (r: string)
  {
    if |v| > 1 && v[0] == '"' && v[|v| - 1] == '"' then v[1..|v| - 1] else v
  }

  function ParseValue(raw: string): (r: Option<string>)
  {
    var v := Unquote(raw);
    if CookieBytes(v) then Some(v) else None
  }

  // ---------------------------------------------------------------------
  // readCookies
  // ---------------------------------------------------------------------

  /** A trimmed part, cut at its first '='. */
  function NameOf(p: string): (n: string)
  {
    var j := IndexOf(p, '=');
    if j >= 0 then p[..j] else p
  }

  function ValueOf(p: string): (v: string)
  {
    var j := IndexOf(p, '=');
    if j >= 0 then p[j + 1..] else ""
  }

  /** One part of a Cookie line, if it holds a cookie that passes the filter. */
  function PartCookie(part: string, filter: string): (r: seq<Cookie>)
    ensures |r| <= 1
  {
    var p := TrimSpace(part);
    if p == "" || !IsCookieNameValid(NameOf(p)) || (filter != "" && filter != NameOf(p)) then []
    else
      var v := ParseValue(ValueOf(p));
      if v.None? then [] else [Cookie(NameOf(p), v.value)]
  }

  function PartReader(filter: string): (f: string -> seq<Cookie>)
  {
    part => PartCookie(part, filter)
  }

  function LineCookies(line: string, filter: string): (r: seq<Cookie>)
  {
    Flat(PartReader(filter), Split(TrimSpace(line), ';'))
  }

  function LineReader(filter: string): (f: string -> seq<Cookie>)
  {
    line => LineCookies(line, filter)
  }

  /** The cookies of a header, line by line and part by part. */
  function LinesCookies(lines: seq<string>, filter: string): (r: seq<Cookie>)
  {
    Flat(LineReader(filter), lines)
  }

  /** The body of the loop over parts, nothing where it continues early. */
  method ReadPart(part: string, filter: string) returns (cookies: seq<Cookie>)
    ensures cookies == PartCookie(part, filter)
  {
    cookies := [];
    var p := TrimSpace(part);
    if |p| == 0 {
      return;
    }
    var name, val := p, "";
    var j := IndexOf(name, '=');
    if j >= 0 {
      name, val := p[..j], p[j + 1..];
    }
    assert name == NameOf(p) && val == ValueOf(p);
    if !IsCookieNameValid(name) {
      return;
    }
    if filter != "" && filter != name {
      return;
    }
    var v := ParseValue(val);
    if v.None? {
      return;
    }
    cookies := [Cookie(name, v.value)];
  }

  method ReadParts(parts: seq<string>, filter: string, before: seq<Cookie>) returns (cookies: seq<Cookie>)
    ensures cookies == before + Flat(PartReader(filter), parts)
  {
    cookies := before;
    ghost var f := PartReader(filter);
    for i := 0 to |parts|
      invariant cookies == before + Flat(f, parts[..i])
    {
      FlatStep(f, parts, i);
      Assoc(before, Flat(f, parts[..i]), f(parts[i]));
      var more := ReadPart(parts[i], filter);
      cookies := cookies + more;
    }
    assert parts[..|parts|] == parts;
  }

  /** readCookies over the values of the Cookie header, none if it is absent. */
  method ReadCookies(lines: seq<string>, filter: string) returns (cookies: seq<Cookie>)
    ensures cookies == LinesCookies(lines, filter)
  {
    cookies := [];
    ghost var f := LineReader(filter);
    for i := 0 to |lines|
      invariant cookies == Flat(f, lines[..i])
    {
      FlatStep(f, lines, i);
      var parts := Split(TrimSpace(lines[i]), ';');
      if |parts| == 1 && parts[0] == "" {
        EmptyLine(parts, filter);
        continue;
      }
      cookies := ReadParts(parts, filter, cookies);
    }
    assert lines[..|lines|] == lines;
  }

  lemma EmptyLine(parts: seq<string>, filter: string)
    requires |parts| == 1 && parts[0] == ""
    ensures Flat(PartReader(filter), parts) == []
  {
    TrimSpaceIdentity(parts[0]);
    assert parts == [parts[0]];
    FlatOne(PartReader(filter), parts[0]);
  }

  // ---------------------------------------------------------------------
  // Filtering
  // ---------------------------------------------------------------------

  function NameFilter(name: string): (f: Cookie -> seq<Cookie>)
  {
    (c: Cookie) => if c.name == name then [c] else []
  }

  /** The cookies of one name, in order. */
  function Named(cs: seq<Cookie>, name: string): (r: seq<Cookie>)
  {
    Flat(NameFilter(name), cs)
  }

  lemma PartFiltered(part: string, name: string)
    requires name != ""
    ensures PartCookie(part, name) == Named(PartCookie(part, ""), name)
  {
    var one := PartCookie(part, "");
    if one != [] {
      assert one == [one[0]];
      FlatOne(NameFilter(name), one[0]);
    }
  }

  lemma LineFiltered(line: string, name: string)
    requires name != ""
    ensures LineCookies(line, name) == Named(LineCookies(line, ""), name)
  {
    var f, h := PartReader(""), PartReader(name);
    var parts := Split(TrimSpace(line), ';');
    forall p | p in parts ensures h(p) == Flat(NameFilter(name), f(p)) {
      PartFiltered(p, name);
    }
    FlatCompose(f, NameFilter(name), h, parts);
  }

  /** Reading with a name gives the cookies of that name, in order, whatever the
      header holds. */
  lemma FilterCommutes(lines: seq<string>, name: string)
    requires name != ""
    ensures LinesCookies(lines, name) == Named(LinesCookies(lines, ""), name)
  {
    var f, h := LineReader(""), LineReader(name);
    forall line | line in lines ensures h(line) == Flat(NameFilter(name), f(line)) {
      LineFiltered(line, name);
    }
    FlatCompose(f, NameFilter(name), h, lines);
  }

  // ---------------------------------------------------------------------
  // AddCookie
  // ---------------------------------------------------------------------

  function PairOf(c: Cookie): (s: string)
  {
    SanitizeName(c.name) + "=" + SanitizeValue(c.value)
  }

  /** The Cookie header after AddCookie, "" standing for an absent one. */
  function Added(header: string, pair: string): (h: string)
  {
    if header != "" then header + "; " + pair else pair
  }

  function AddedAll(header: string, pairs: seq<string>): (h: string)
    decreases |pairs|
  {
    if pairs == [] then header else AddedAll(Added(header, pairs[0]), pairs[1..])
  }

  predicate GoodCookie(c: Cookie)
  {
    IsCookieNameValid(c.name) && CookieBytes(c.value)
  }

  predicate GoodCookies(cs: seq<Cookie>)
  {
    forall c :: c in cs ==> GoodCookie(c)
  }

  /** A character that survives trimming, splitting and sanitizing. */
  predicate Plain(c: char)
  {
    c !in SPACES && c != ';'
  }

  lemma TokenIsPlain(s: string)
    requires IsCookieNameValid(s)
    ensures (forall i :: 0 <= i < |s| ==> Plain(s[i])) && '=' !in s && SanitizeName(s) == s
  {
    assert forall i :: 0 <= i < |s| ==> IsToken(s[i]) && s[i] != '\n' && s[i] != '\r' && s[i] != '=';
  }

  lemma ValueIsPlain(s: string)
    requires CookieBytes(s)
    ensures (forall i :: 0 <= i < |s| ==> Plain(s[i])) && SanitizeValue(s) == s && Unquote(s) == s
  {
    assert forall i :: 0 <= i < |s| ==> IsCookieByte(s[i]) && s[i] != '\n' && s[i] != '\r' && s[i] != ';' && s[i] != '"';
  }

  /** A printed pair is taken apart again. */
  lemma PairRead(c: Cookie)
    requires GoodCookie(c)
    ensures var p := PairOf(c);
            && p != "" && (forall i :: 0 <= i < |p| ==> Plain(p[i]))
            && NameOf(p) == c.name && ValueOf(p) == c.value
  {
    TokenIsPlain(c.name);
    ValueIsPlain(c.value);
    var p := PairOf(c);
    assert p == c.name + ['='] + c.value;
    IndexOfSplit(c.name, '=', c.value);
    assert forall i :: 0 <= i < |p| ==> Plain(p[i]);
  }

  // ---------------------------------------------------------------------
  // Parts joined by "; "
  // ---------------------------------------------------------------------

  function JoinParts(ps: seq<string>): (h: string)
    requires ps != []
    decreases |ps|
  {
    if |ps| == 1 then ps[0] else ps[0] + "; " + JoinParts(ps[1..])
  }

  lemma {:induction false} JoinAdd(ps: seq<string>, p: string)
    requires ps != []
    ensures JoinParts(ps + [p]) == JoinParts(ps) + "; " + p
    decreases |ps|
  {
    assert (ps + [p])[1..] == ps[1..] + [p];
    if |ps| == 1 {
      assert ps[1..] + [p] == [p];
    } else {
      JoinAdd(ps[1..], p);
      var a, b := ps[0] + "; ", JoinParts(ps[1..]);
      Assoc(a, b, "; ");
      Assoc(a, b + "; ", p);
    }
  }

  lemma JoinCut(lead: string, p: string, rest: string)
    ensures lead + (p + "; " + rest) == (lead + p) + [';'] + (" " + rest)
  {
    Assoc(p, "; ", rest);
    Assoc(lead, p, "; " + rest);
    Assoc([';'], " ", rest);
    assert [';'] + " " == "; ";
    Assoc(lead + p, [';'], " " + rest);
  }

  /** All parts but the first come back behind a space. */
  function Spaced(ps: seq<string>): (r: seq<string>)
    ensures |r| == |ps|
  {
    if ps == [] then [] else [" " + ps[0]] + Spaced(ps[1..])
  }

  /** A part that trimming and splitting leave whole. */
  predicate Whole(p: string)
  {
    p != "" && p[0] !in SPACES && p[|p| - 1] !in SPACES && ';' !in p
  }

  predicate AllWhole(ps: seq<string>)
  {
    ps == [] || (Whole(ps[0]) && AllWhole(ps[1..]))
  }

  lemma {:induction false} AllWholeAppend(a: seq<string>, b: seq<string>)
    requires AllWhole(a) && AllWhole(b)
    ensures AllWhole(a + b)
  {
    if a == [] {
      assert a + b == b;
    } else {
      AllWholeAppend(a[1..], b);
      assert (a + b)[1..] == a[1..] + b;
    }
  }

  lemma {:induction false} SplitJoined(ps: seq<string>, lead: string)
    requires ps != [] && AllWhole(ps) && ';' !in lead
    ensures Split(lead + JoinParts(ps), ';') == [lead + ps[0]] + Spaced(ps[1..])
    decreases |ps|
  {
    var p := lead + ps[0];
    assert ';' !in p;
    if |ps| == 1 {
      assert Split(p, ';') == [p] && Spaced(ps[1..]) == [];
    } else {
      var rest := JoinParts(ps[1..]);
      JoinCut(lead, ps[0], rest);
      SplitStep(p, ';', " " + rest);
      SplitJoined(ps[1..], " ");
      assert Spaced(ps[1..]) == [" " + ps[1]] + Spaced(ps[1..][1..]);
    }
  }

  lemma WholeTrims(p: string)
    requires Whole(p)
    ensures TrimSpace(p) == p && TrimSpace(" " + p) == p
  {
    TrimSpaceIdentity(p);
    TrimSpaceLeading(p);
  }

  lemma {:induction false} JoinEnds(ps: seq<string>)
    requires ps != [] && AllWhole(ps)
    ensures var h := JoinParts(ps); h != "" && h[0] !in SPACES && h[|h| - 1] !in SPACES
    decreases |ps|
  {
    if |ps| > 1 {
      JoinEnds(ps[1..]);
      var h := JoinParts(ps);
      assert h[0] == ps[0][0];
    }
  }

  lemma LineTrims(ps: seq<string>)
    requires ps != [] && AllWhole(ps)
    ensures TrimSpace(JoinParts(ps)) == JoinParts(ps)
  {
    var h := JoinParts(ps);
    JoinEnds(ps);
    EndsTrim(h);
  }

  lemma EndsTrim(h: string)
    requires h != "" && h[0] !in SPACES && h[|h| - 1] !in SPACES
    ensures TrimSpace(h) == h
  {
    TrimSpaceIdentity(h);
  }

  /** A line of whole parts is split at the very places it was joined. */
  lemma LineSplits(ps: seq<string>)
    requires ps != [] && AllWhole(ps)
    ensures Split(TrimSpace(JoinParts(ps)), ';') == [ps[0]] + Spaced(ps[1..])
  {
    LineTrims(ps);
    SplitJoined(ps, "");
    Unled(JoinParts(ps));
    Unled(ps[0]);
  }

  lemma Unled(s: string)
    ensures "" + s == s
  {
  }

  // ---------------------------------------------------------------------
  // Reading back what was added
  // ---------------------------------------------------------------------

  function PairsOf(cs: seq<Cookie>): (ps: seq<string>)
    ensures |ps| == |cs|
  {
    if cs == [] then [] else [PairOf(cs[0])] + PairsOf(cs[1..])
  }

  /** Adding pairs one by one joins them. */
  lemma {:induction false} AddedIsJoined(ps: seq<string>, more: seq<string>)
    requires ps != [] && JoinParts(ps) != ""
    ensures AddedAll(JoinParts(ps), more) == JoinParts(ps + more)
    decreases |more|
  {
    if more == [] {
      assert ps + more == ps;
    } else {
      JoinAdd(ps, more[0]);
      AddedIsJoined(ps + [more[0]], more[1..]);
      assert ps + [more[0]] + more[1..] == ps + more;
    }
  }

  lemma AddedAllIsJoined(ps: seq<string>)
    requires ps != [] && ps[0] != ""
    ensures AddedAll("", ps) == JoinParts(ps)
  {
    assert JoinParts([ps[0]]) == ps[0];
    AddedIsJoined([ps[0]], ps[1..]);
    assert [ps[0]] + ps[1..] == ps;
  }

  lemma PartRead(part: string, c: Cookie)
    requires GoodCookie(c) && TrimSpace(part) == PairOf(c)
    ensures PartCookie(part, "") == [c]
  {
    PairRead(c);
    ValueIsPlain(c.value);
  }

  lemma PairIsWhole(c: Cookie)
    requires GoodCookie(c)
    ensures Whole(PairOf(c))
  {
    var p := PairOf(c);
    PairRead(c);
    assert Plain(p[0]) && Plain(p[|p| - 1]);
  }

  lemma {:induction false} PairsAreWhole(cs: seq<Cookie>)
    requires GoodCookies(cs)
    ensures AllWhole(PairsOf(cs))
  {
    if cs != [] {
      PairIsWhole(cs[0]);
      PairsAreWhole(cs[1..]);
      assert PairsOf(cs)[1..] == PairsOf(cs[1..]);
    }
  }

  lemma PairBehind(c: Cookie)
    requires GoodCookie(c)
    ensures PartCookie(PairOf(c), "") == [c] && PartCookie(" " + PairOf(c), "") == [c]
  {
    PairIsWhole(c);
    WholeTrims(PairOf(c));
    PartRead(PairOf(c), c);
    PartRead(" " + PairOf(c), c);
  }

  /** If a reader undoes a printer item by item, it does so list by list. */
  lemma {:induction false} ReadsSpaced(f: string -> seq<Cookie>, cs: seq<Cookie>)
    requires forall c :: c in cs ==> f(" " + PairOf(c)) == [c]
    ensures Flat(f, Spaced(PairsOf(cs))) == cs
  {
    if cs != [] {
      var p := PairOf(cs[0]);
      ReadsSpaced(f, cs[1..]);
      Unconsed(p, PairsOf(cs[1..]));
      FlatCons(f, " " + p, Spaced(PairsOf(cs[1..])));
      Cons(cs);
    }
  }

  /** The one line that AddCookie builds up is taken apart into the same cookies. */
  lemma LineRead(cs: seq<Cookie>)
    requires cs != [] && GoodCookies(cs)
    ensures LineCookies(JoinParts(PairsOf(cs)), "") == cs
  {
    var f, p, rest := PartReader(""), PairOf(cs[0]), PairsOf(cs[1..]);
    PairsAreWhole(cs);
    LineSplits(PairsOf(cs));
    Unconsed(p, rest);
    FlatCons(f, p, Spaced(rest));
    forall c | c in cs ensures f(" " + PairOf(c)) == [c] && f(PairOf(c)) == [c] {
      PairBehind(c);
    }
    ReadsSpaced(f, cs[1..]);
    Cons(cs);
  }

  /** The Cookie header after adding `cs` to a request without one. */
  function CookieHeader(cs: seq<Cookie>): (lines: seq<string>)
  {
    if cs == [] then [] else [AddedAll("", PairsOf(cs))]
  }

  lemma PrintedRead(cs: seq<Cookie>)
    requires cs != [] && GoodCookies(cs)
    ensures LinesCookies(CookieHeader(cs), "") == cs
  {
    var ps := PairsOf(cs);
    PairIsWhole(cs[0]);
    AddedAllIsJoined(ps);
    LineRead(cs);
    FlatOne(LineReader(""), JoinParts(ps));
  }

  // ---------------------------------------------------------------------
  // What any header can give
  // ---------------------------------------------------------------------

  lemma {:induction false} FlatGood<A>(f: A -> seq<Cookie>, xs: seq<A>)
    requires forall x :: x in xs ==> GoodCookies(f(x))
    ensures GoodCookies(Flat(f, xs))
  {
    if xs != [] {
      FlatGood(f, xs[1..]);
    }
  }

  lemma PartGood(part: string, filter: string)
    ensures GoodCookies(PartCookie(part, filter))
  {
  }

  lemma LineGood(line: string, filter: string)
    ensures GoodCookies(LineCookies(line, filter))
  {
    var parts := Split(TrimSpace(line), ';');
    forall p | p in parts ensures GoodCookies(PartReader(filter)(p)) {
      PartGood(p, filter);
    }
    FlatGood(PartReader(filter), parts);
  }

  lemma LinesWithin(lines: seq<string>, filter: string)
    ensures GoodCookies(LinesCookies(lines, filter))
  {
    forall l | l in lines ensures GoodCookies(LineReader(filter)(l)) {
      LineGood(l, filter);
    }
    FlatGood(LineReader(filter), lines);
  }

  /** Whatever ASCII text the header holds, only token names and cookie-byte
      values come out. */
  lemma LinesGood(lines: seq<string>, filter: string)
    requires forall l :: l in lines ==> Ascii(l)
    ensures GoodCookies(LinesCookies(lines, filter))
  {
    LinesWithin(lines, filter);
  }

  /** The cookies added to a request are read back from its one Cookie line, in
      order and unchanged, exactly when they are within the grammar. */
  lemma CookiesRoundTrip(cs: seq<Cookie>)
    requires forall c :: c in cs ==> Ascii(c.name) && Ascii(c.value)
    ensures LinesCookies(CookieHeader(cs), "") == cs <==> GoodCookies(cs)
  {
    LinesWithin(CookieHeader(cs), "");
    if cs != [] && GoodCookies(cs) {
      PrintedRead(cs);
    }
  }
}
