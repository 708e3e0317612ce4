/** Set-Cookie lines: Cookie.String and readSetCookies (section 4.1.1 of
    RFC 6265). */
module SetCookies {
  import opened Text
  import opened Numerals
  import opened Cookies

  /** An http.Cookie; an expiry date is its Unix time, None the zero time. */
  datatype SetCookie = SetCookie(
    name: string, value: string, path: string, domain: string, expires: Option<int>, rawExpires: string,
    maxAge: int, secure: bool, httpOnly: bool, raw: string, unparsed: seq<string>)

  /** The time package: how a date is printed, and read in either accepted form. */
  datatype Dates = Dates(show: int -> string, parse: string -> Option<int>)

  // ---------------------------------------------------------------------
  // Cookie.String
  // ---------------------------------------------------------------------

  /** How the attributes are spelled. */
  datatype Keys = Keys(path: string, domain: string, expires: string, maxAge: string, httpOnly: string, secure: string)

  const KEYS := Keys("Path", "Domain", "Expires", "Max-Age", "HttpOnly", "Secure")

  function Attribute(key: string, val: string): (p: string)
  {
    key + "=" + val
  }

  function MaxAgeText(n: int): (s: string)
  {
    if n > 0 then Format(n, Ten) else "0"
  }

  function ValuePart(key: string, val: string): (ps: seq<string>)
  {
    if val != "" then [Attribute(key, SanitizeValue(val))] else []
  }

  /** Only a date after the epoch is printed. */
  predicate Dated(c: SetCookie)
  {
    c.expires.Some? && c.expires.value > 0
  }

  function ExpiresPart(key: string, c: SetCookie, dates: Dates): (ps: seq<string>)
  {
    if Dated(c) then [Attribute(key, dates.show(c.expires.value))] else []
  }

  function MaxAgePart(key: string, n: int): (ps: seq<string>)
  {
    if n != 0 then [Attribute(key, MaxAgeText(n))] else []
  }

  function FlagPart(key: string, on: bool): (ps: seq<string>)
  {
    if on then [key] else []
  }

  function Fields(ks: Keys, c: SetCookie, dates: Dates): (ps: seq<string>)
  {
    [PairOf(Cookie(c.name, c.value))] + ValuePart(ks.path, c.path) + ValuePart(ks.domain, c.domain)
    + ExpiresPart(ks.expires, c, dates)
  }

  function PartsOf(ks: Keys, c: SetCookie, dates: Dates): (ps: seq<string>)
  {
    Fields(ks, c, dates) + MaxAgePart(ks.maxAge, c.maxAge) + FlagPart(ks.httpOnly, c.httpOnly)
    + FlagPart(ks.secure, c.secure)
  }

  function Printed(c: SetCookie, dates: Dates): (line: string)
  {
    JoinParts(PartsOf(KEYS, c, dates))
  }

  /** Cookie.String, writing to its buffer piece by piece. */
  method String(c: SetCookie, dates: Dates) returns (b: string)
    ensures b == Printed(c, dates)
  {
    var ks := KEYS;
    b := SanitizeName(c.name) + "=" + SanitizeValue(c.value);
    b := WriteFields(b, ks, c, dates);
    ghost var ps := Fields(ks, c, dates);
    b := WriteMaxAge(b, ps, ks.maxAge, c.maxAge);
    ps := ps + MaxAgePart(ks.maxAge, c.maxAge);
    b := WriteFlag(b, ps, ks.httpOnly, c.httpOnly);
    b := WriteFlag(b, ps + FlagPart(ks.httpOnly, c.httpOnly), ks.secure, c.secure);
  }

  method WriteFields(start: string, ks: Keys, c: SetCookie, dates: Dates) returns (b: string)
    requires start == PairOf(Cookie(c.name, c.value))
    ensures b == JoinParts(Fields(ks, c, dates))
  {
    b := start;
    ghost var ps := [b];
    if |c.path| > 0 {
      b := Append(b, ps, Attribute(ks.path, SanitizeValue(c.path)));
    } else {
      assert ps + ValuePart(ks.path, c.path) == ps;
    }
    ps := ps + ValuePart(ks.path, c.path);
    assert b == JoinParts(ps);
    if |c.domain| > 0 {
      b := Append(b, ps, Attribute(ks.domain, SanitizeValue(c.domain)));
    } else {
      assert ps + ValuePart(ks.domain, c.domain) == ps;
    }
    ps := ps + ValuePart(ks.domain, c.domain);
    assert b == JoinParts(ps);
    if c.expires.Some? && c.expires.value > 0 {
      b := Append(b, ps, Attribute(ks.expires, dates.show(c.expires.value)));
    } else {
      assert ps + ExpiresPart(ks.expires, c, dates) == ps;
    }
  }

  method WriteMaxAge(b: string, ghost ps: seq<string>, key: string, n: int) returns (d: string)
    requires ps != [] && b == JoinParts(ps)
    ensures d == JoinParts(ps + MaxAgePart(key, n))
  {
    d := b;
    if n > 0 {
      d := Append(b, ps, Attribute(key, Format(n, Ten)));
    } else if n < 0 {
      d := Append(b, ps, Attribute(key, "0"));
    } else {
      assert ps + MaxAgePart(key, n) == ps;
    }
  }

  method WriteFlag(b: string, ghost ps: seq<string>, key: string, on: bool) returns (d: string)
    requires ps != [] && b == JoinParts(ps)
    ensures d == JoinParts(ps + FlagPart(key, on))
  {
    d := b;
    if on {
      d := Append(b, ps, key);
    } else {
      assert ps + FlagPart(key, on) == ps;
    }
  }

  method Append(b: string, ghost ps: seq<string>, p: string) returns (d: string)
    requires ps != [] && b == JoinParts(ps)
    ensures d == JoinParts(ps + [p])
  {
    JoinAdd(ps, p);
    d := b + "; " + p;
  }

  // ---------------------------------------------------------------------
  // readSetCookies
  // ---------------------------------------------------------------------

  datatype Kind = KSecure | KHttpOnly | KDomain | KMaxAge | KExpires | KPath | KOther

  function KindOf(attr: string): (k: Kind)
  {
    var l := ToLower(attr);
    if l == "secure" then KSecure
    else if l == "httponly" then KHttpOnly
    else if l == "domain" then KDomain
    else if l == "max-age" then KMaxAge
    else if l == "expires" then KExpires
    else if l == "path" then KPath
    else KOther
  }

  /** The Max-Age a value stands for, None when it is not one. */
  function MaxAgeOf(v: string): (r: Option<int>)
    ensures r.Some? ==> r.value == -1 || r.value > 0
  {
    var p := ParseInt(v);
    if !p.Number? || (p.n != 0 && v[0] == '0') then None else Some(if p.n <= 0 then -1 else p.n)
  }

  predicate DateBytes(s: string)
  {
    forall i :: 0 <= i < |s| ==> IsCookieByte(s[i]) || s[i] == ',' || s[i] == ' '
  }

  function ParseDateValue(raw: string): (r: Option<string>)
  {
    var v := Unquote(raw);
    if DateBytes(v) then Some(v) else None
  }

  function Unread(c: SetCookie, p: string): (d: SetCookie)
  {
    c.(unparsed := c.unparsed + [p])
  }

  /** One understood attribute with its value. */
  function Set(c: SetCookie, k: Kind, v: string, p: string, dates: Dates): (d: SetCookie)
  {
    match k
    case KSecure => c.(secure := true)
    case KHttpOnly => c.(httpOnly := true)
    case KDomain => c.(domain := v)
    case KMaxAge =>
      var n := MaxAgeOf(v);
      if n.None? then Unread(c, p) else c.(maxAge := n.value)
    case KExpires =>
      var t := dates.parse(v);
      if t.None? then Unread(c.(rawExpires := v, expires := None), p) else c.(rawExpires := v, expires := t)
    case KPath => c.(path := v)
    case KOther => Unread(c, p)
  }

  /** A trimmed part of kind `k`; what is not understood is kept in Unparsed. */
  function Take(c: SetCookie, k: Kind, p: string, dates: Dates): (d: SetCookie)
  {
    var v := if k.KExpires? then ParseDateValue(ValueOf(p)) else ParseValue(ValueOf(p));
    if v.None? then Unread(c, p) else Set(c, k, v.value, p, dates)
  }

  /** One part after the first. */
  function Apply(c: SetCookie, part: string, dates: Dates): (d: SetCookie)
  {
    var p := TrimSpace(part);
    if p == "" then c else Take(c, KindOf(NameOf(p)), p, dates)
  }

  function ApplyAll(c: SetCookie, parts: seq<string>, dates: Dates): (d: SetCookie)
    decreases |parts|
  {
    if parts == [] then c else ApplyAll(Apply(c, parts[0], dates), parts[1..], dates)
  }

  function Fresh(c: Cookie, line: string): (d: SetCookie)
  {
    SetCookie(c.name, c.value, "", "", None, "", 0, false, false, line, [])
  }

  /** The name and value at the head of a line. */
  function FirstPair(p: string): (r: Option<Cookie>)
    ensures r.Some? ==> GoodCookie(r.value)
  {
    if IndexOf(p, '=') < 0 || !IsCookieNameValid(NameOf(p)) then None
    else
      var v := ParseValue(ValueOf(p));
      if v.None? then None else Some(Cookie(NameOf(p), v.value))
  }

  /** One Set-Cookie line; a line without a valid name and value gives none. */
  function ReadLine(line: string, dates: Dates): (r: Option<SetCookie>)
  {
    var parts := Split(TrimSpace(line), ';');
    var c := FirstPair(TrimSpace(parts[0]));
    if c.None? then None else Some(ApplyAll(Fresh(c.value, line), parts[1..], dates))
  }

  function Listed<A>(r: Option<A>): (xs: seq<A>)
  {
    if r.None? then [] else [r.value]
  }

  function SetReader(dates: Dates): (f: string -> seq<SetCookie>)
  {
    line => Listed(ReadLine(line, dates))
  }

  /** The attribute loop of readSetCookies. */
  method ReadAttributes(parts: seq<string>, start: SetCookie, dates: Dates) returns (c: SetCookie)
    requires parts != []
    ensures c == ApplyAll(start, parts[1..], dates)
  {
    c := start;
    for i := 1 to |parts|
      invariant ApplyAll(c, parts[i..], dates) == ApplyAll(start, parts[1..], dates)
    {
      assert parts[i..][1..] == parts[i + 1..];
      c := Apply(c, parts[i], dates);
    }
    assert parts[|parts|..] == [];
  }

  method ReadPair(p: string) returns (r: Option<Cookie>)
    ensures r == FirstPair(p)
  {
    var j := IndexOf(p, '=');
    if j < 0 {
      return None;
    }
    var name, value := p[..j], p[j + 1..];
    if !IsCookieNameValid(name) {
      return None;
    }
    var v := ParseValue(value);
    if v.None? {
      return None;
    }
    return Some(Cookie(name, v.value));
  }

  /** The body of the loop over lines, None where it continues early. */
  method ReadOne(line: string, dates: Dates) returns (r: Option<SetCookie>)
    ensures r == ReadLine(line, dates)
  {
    var parts := Split(TrimSpace(line), ';');
    if |parts| == 1 && parts[0] == "" {
      NoPair(parts[0]);
      return None;
    }
    var c := ReadPair(TrimSpace(parts[0]));
    if c.None? {
      return None;
    }
    var d := ReadAttributes(parts, Fresh(c.value, line), dates);
    return Some(d);
  }

  lemma NoPair(p: string)
    requires p == ""
    ensures FirstPair(TrimSpace(p)).None?
  {
    TrimSpaceIdentity(p);
  }

  method ReadNext(lines: seq<string>, i: nat, before: seq<SetCookie>, dates: Dates) returns (cookies: seq<SetCookie>)
    requires i < |lines| && before == Flat(SetReader(dates), lines[..i])
    ensures cookies == Flat(SetReader(dates), lines[..i + 1])
  {
    FlatStep(SetReader(dates), lines, i);
    var c := ReadOne(lines[i], dates);
    cookies := before + Listed(c);
  }

  /** readSetCookies over the values of the Set-Cookie header. */
  method ReadSetCookies(lines: seq<string>, dates: Dates) returns (cookies: seq<SetCookie>)
    ensures cookies == Flat(SetReader(dates), lines)
  {
    cookies := [];
    TakeNone(lines);
    TakeAll(lines);
    for i := 0 to |lines|
      invariant cookies == Flat(SetReader(dates), lines[..i])
    {
      cookies := ReadNext(lines, i, cookies, dates);
    }
  }

  // ---------------------------------------------------------------------
  // What any line can give
  // ---------------------------------------------------------------------

  /** Fields within the grammar. */
  predicate Lexical(c: SetCookie)
  {
    && GoodCookie(Cookie(c.name, c.value))
    && CookieBytes(c.path)
    && CookieBytes(c.domain)
  }

  lemma SetLexical(c: SetCookie, k: Kind, v: string, p: string, dates: Dates)
    requires Lexical(c) && c.maxAge >= -1 && (k.KDomain? || k.KPath? ==> CookieBytes(v))
    ensures var d := Set(c, k, v, p, dates); Lexical(d) && d.maxAge >= -1
  {
  }

  lemma TakeLexical(c: SetCookie, k: Kind, p: string, dates: Dates)
    requires Lexical(c) && c.maxAge >= -1
    ensures Lexical(Take(c, k, p, dates)) && Take(c, k, p, dates).maxAge >= -1
  {
    var v := if k.KExpires? then ParseDateValue(ValueOf(p)) else ParseValue(ValueOf(p));
    if v.Some? {
      SetLexical(c, k, v.value, p, dates);
    }
  }

  lemma ApplyLexical(c: SetCookie, part: string, dates: Dates)
    requires Lexical(c) && c.maxAge >= -1
    ensures Lexical(Apply(c, part, dates)) && Apply(c, part, dates).maxAge >= -1
  {
    var p := TrimSpace(part);
    TakeLexical(c, KindOf(NameOf(p)), p, dates);
  }

  lemma {:induction false} ApplyAllLexical(c: SetCookie, parts: seq<string>, dates: Dates)
    requires Lexical(c) && c.maxAge >= -1
    ensures Lexical(ApplyAll(c, parts, dates)) && ApplyAll(c, parts, dates).maxAge >= -1
    decreases |parts|
  {
    if parts != [] {
      ApplyLexical(c, parts[0], dates);
      ApplyAllLexical(Apply(c, parts[0], dates), parts[1..], dates);
    }
  }

  /** Whatever the line of ASCII text, a cookie read from it is within the grammar. */
  lemma ReadIsLexical(line: string, dates: Dates)
    requires Ascii(line) && ReadLine(line, dates).Some?
    ensures Lexical(ReadLine(line, dates).value) && ReadLine(line, dates).value.maxAge >= -1
  {
    ReadWithin(line, dates);
  }

  lemma ReadWithin(line: string, dates: Dates)
    requires ReadLine(line, dates).Some?
    ensures Lexical(ReadLine(line, dates).value) && ReadLine(line, dates).value.maxAge >= -1
  {
    var parts := Split(TrimSpace(line), ';');
    var c := FirstPair(TrimSpace(parts[0]));
    ApplyAllLexical(Fresh(c.value, line), parts[1..], dates);
  }

  // ---------------------------------------------------------------------
  // Round trip
  // ---------------------------------------------------------------------

  lemma PathKind(s: string)
    requires s == "Path"
    ensures Means(s, KPath)
  {
    assert IsCookieNameValid(s);
    assert ToLower(s) == "path";
  }

  lemma DomainKind(s: string)
    requires s == "Domain"
    ensures Means(s, KDomain)
  {
    assert IsCookieNameValid(s);
    var l := ToLower(s);
    assert l == "domain" && l[0] != "secure"[0];
  }

  lemma ExpiresKind(s: string)
    requires s == "Expires"
    ensures Means(s, KExpires)
  {
    assert IsCookieNameValid(s);
    var l := ToLower(s);
    assert l == "expires" && |l| == 7 && l[0] == 'e';
  }

  lemma MaxAgeKind(s: string)
    requires s == "Max-Age"
    ensures Means(s, KMaxAge)
  {
    assert IsCookieNameValid(s);
    var l := ToLower(s);
    assert l == "max-age" && |l| == 7;
  }

  lemma HttpOnlyKind(s: string)
    requires s == "HttpOnly"
    ensures Means(s, KHttpOnly)
  {
    assert IsCookieNameValid(s);
    var l := ToLower(s);
    assert l == "httponly" && |l| == 8;
  }

  lemma SecureKind(s: string)
    requires s == "Secure"
    ensures Means(s, KSecure)
  {
    assert IsCookieNameValid(s);
    assert ToLower(s) == "secure";
  }

  /** A date as printed: the time package reads it back, and no byte of it is cut. */
  predicate DatePrints(dates: Dates, t: int)
  {
    var s := dates.show(t);
    s != "" && DateBytes(s) && s[|s| - 1] != ' ' && dates.parse(s) == Some(t)
  }

  lemma CutAttribute(key: string, val: string)
    requires key != "" && IsCookieNameValid(key)
    ensures var p := Attribute(key, val); NameOf(p) == key && ValueOf(p) == val && p != "" && p[0] !in SPACES
  {
    TokenIsPlain(key);
    assert Plain(key[0]);
    assert Attribute(key, val) == key + ['='] + val;
    IndexOfSplit(key, '=', val);
  }

  /** An attribute whose value is cookie bytes is a whole part. */
  lemma AttributeWhole(key: string, val: string)
    requires key != "" && IsCookieNameValid(key) && DateBytes(val) && (val != "" ==> val[|val| - 1] != ' ')
    ensures Whole(Attribute(key, val))
  {
    CutAttribute(key, val);
    TokenIsPlain(key);
    var p := Attribute(key, val);
    assert p[|p| - 1] == if val == "" then '=' else val[|val| - 1];
    assert forall i :: 0 <= i < |p| ==> p[i] != ';';
  }

  lemma CookieIsDate(s: string)
    requires CookieBytes(s)
    ensures DateBytes(s) && (s != "" ==> s[|s| - 1] != ' ')
  {
  }

  /** A whole part behind its space is taken by its kind. */
  lemma Behind(c: SetCookie, p: string, dates: Dates)
    requires Whole(p)
    ensures Apply(c, " " + p, dates) == Take(c, KindOf(NameOf(p)), p, dates)
  {
    WholeTrims(p);
  }

  lemma TakeValue(c: SetCookie, k: Kind, key: string, val: string, dates: Dates)
    requires key != "" && IsCookieNameValid(key) && CookieBytes(val) && !k.KExpires?
    ensures var p := Attribute(key, val); Whole(p) && Take(c, k, p, dates) == Set(c, k, val, p, dates)
  {
    CookieIsDate(val);
    AttributeWhole(key, val);
    CutAttribute(key, val);
    ValueIsPlain(val);
  }

  lemma TakeDate(c: SetCookie, key: string, val: string, dates: Dates)
    requires key != "" && IsCookieNameValid(key)
    requires val != "" && DateBytes(val) && val[|val| - 1] != ' '
    ensures var p := Attribute(key, val); Whole(p) && Take(c, KExpires, p, dates) == Set(c, KExpires, val, p, dates)
  {
    AttributeWhole(key, val);
    CutAttribute(key, val);
    assert Unquote(val) == val;
  }

  lemma TakeFlag(c: SetCookie, k: Kind, key: string, dates: Dates)
    requires key != "" && IsCookieNameValid(key) && !k.KExpires?
    ensures Whole(key) && NameOf(key) == key && Take(c, k, key, dates) == Set(c, k, "", key, dates)
  {
    TokenIsPlain(key);
    assert Plain(key[0]) && Plain(key[|key| - 1]);
    var none := "";
    assert CookieBytes(none) && Unquote(none) == none;
  }

  lemma {:induction false} ApplyAppend(c: SetCookie, a: seq<string>, b: seq<string>, dates: Dates)
    ensures ApplyAll(c, Spaced(a + b), dates) == ApplyAll(ApplyAll(c, Spaced(a), dates), Spaced(b), dates)
    decreases |a|
  {
    if a == [] {
      assert a + b == b;
    } else {
      assert (a + b)[1..] == a[1..] + b && Spaced(a + b)[1..] == Spaced(a[1..] + b) && Spaced(a)[1..] == Spaced(a[1..]);
      ApplyAppend(Apply(c, " " + a[0], dates), a[1..], b, dates);
    }
  }

  lemma ApplyOne(c: SetCookie, p: string, dates: Dates)
    ensures ApplyAll(c, Spaced([p]), dates) == Apply(c, " " + p, dates)
  {
    assert Spaced([p]) == [" " + p] && [" " + p][1..] == [];
  }

  /** A key that is a token and is recognised as `k`. */
  predicate Means(key: string, k: Kind)
  {
    key != "" && IsCookieNameValid(key) && KindOf(key) == k
  }

  predicate Understood(ks: Keys)
  {
    && Means(ks.path, KPath)
    && Means(ks.domain, KDomain)
    && Means(ks.expires, KExpires)
    && Means(ks.maxAge, KMaxAge)
    && Means(ks.httpOnly, KHttpOnly)
    && Means(ks.secure, KSecure)
  }

  lemma KeysUnderstood()
    ensures Understood(KEYS)
  {
    var ks := KEYS;
    PathKind(ks.path);
    DomainKind(ks.domain);
    ExpiresKind(ks.expires);
    MaxAgeKind(ks.maxAge);
    HttpOnlyKind(ks.httpOnly);
    SecureKind(ks.secure);
  }

  /** A part that is read as `e` when it is there, and leaves `d` alone when not. */
  predicate Absorbed(d: SetCookie, ps: seq<string>, e: SetCookie, dates: Dates)
  {
    AllWhole(ps) && ApplyAll(d, Spaced(ps), dates) == e
  }

  lemma AbsorbNone(d: SetCookie, ps: seq<string>, dates: Dates)
    requires ps == []
    ensures Absorbed(d, ps, d, dates)
  {
    assert Spaced(ps) == [];
  }

  lemma AbsorbOne(d: SetCookie, k: Kind, p: string, dates: Dates)
    requires Whole(p) && KindOf(NameOf(p)) == k
    ensures Absorbed(d, [p], Take(d, k, p, dates), dates)
  {
    Behind(d, p, dates);
    ApplyOne(d, p, dates);
  }

  lemma AbsorbValue(d: SetCookie, k: Kind, key: string, val: string, dates: Dates)
    requires Means(key, k) && CookieBytes(val) && !k.KExpires?
    ensures Absorbed(d, [Attribute(key, val)], Set(d, k, val, Attribute(key, val), dates), dates)
  {
    TakeValue(d, k, key, val, dates);
    CutAttribute(key, val);
    AbsorbOne(d, k, Attribute(key, val), dates);
  }

  lemma AbsorbDate(d: SetCookie, key: string, val: string, dates: Dates)
    requires Means(key, KExpires) && val != "" && DateBytes(val) && val[|val| - 1] != ' '
    ensures Absorbed(d, [Attribute(key, val)], Set(d, KExpires, val, Attribute(key, val), dates), dates)
  {
    TakeDate(d, key, val, dates);
    CutAttribute(key, val);
    AbsorbOne(d, KExpires, Attribute(key, val), dates);
  }

  lemma AbsorbBoth(c: SetCookie, a: seq<string>, d: SetCookie, b: seq<string>, e: SetCookie, dates: Dates)
    requires Absorbed(c, a, d, dates) && Absorbed(d, b, e, dates)
    ensures Absorbed(c, a + b, e, dates)
  {
    ApplyAppend(c, a, b, dates);
    AllWholeAppend(a, b);
  }

  lemma OneValue(key: string, val: string)
    requires val != "" && CookieBytes(val)
    ensures ValuePart(key, val) == [Attribute(key, val)]
  {
    ValueIsPlain(val);
  }

  lemma ValueAbsorbed(key: string, k: Kind, val: string, d: SetCookie, dates: Dates)
    requires Means(key, k) && !k.KExpires? && CookieBytes(val)
    ensures Absorbed(d, ValuePart(key, val), if val == "" then d else Set(d, k, val, Attribute(key, val), dates), dates)
  {
    if val == "" {
      AbsorbNone(d, ValuePart(key, val), dates);
    } else {
      OneValue(key, val);
      AbsorbValue(d, k, key, val, dates);
    }
  }

  /** A cookie's date fields after printing and reading. */
  function DateOf(c: SetCookie): (t: Option<int>)
  {
    if Dated(c) then c.expires else None
  }

  function DateText(c: SetCookie, dates: Dates): (s: string)
  {
    if Dated(c) then dates.show(c.expires.value) else ""
  }

  lemma ExpiresAbsorbed(key: string, c: SetCookie, d: SetCookie, dates: Dates)
    requires Means(key, KExpires) && (Dated(c) ==> DatePrints(dates, c.expires.value))
    requires d.expires.None? && d.rawExpires == ""
    ensures Absorbed(d, ExpiresPart(key, c, dates), d.(expires := DateOf(c), rawExpires := DateText(c, dates)), dates)
  {
    if !Dated(c) {
      AbsorbNone(d, ExpiresPart(key, c, dates), dates);
    } else {
      AbsorbDate(d, key, dates.show(c.expires.value), dates);
    }
  }

  /** Every negative MaxAge comes back as -1. */
  function AgeOf(n: int): (m: int)
  {
    if n < 0 then -1 else n
  }

  lemma DigitsAreBytes(s: string)
    requires forall i :: 0 <= i < |s| ==> IsHexDigit(s[i])
    ensures CookieBytes(s)
  {
  }

  lemma MaxAgeRead(n: int)
    requires n != 0 && n < INT64_LIMIT
    ensures CookieBytes(MaxAgeText(n)) && MaxAgeOf(MaxAgeText(n)) == Some(AgeOf(n))
  {
    var s := MaxAgeText(n);
    if n > 0 {
      FormatParseInt(n);
      FormatNoLeadingZero(n, Ten);
    } else {
      FormatParseInt(0);
      assert Format(0, Ten) == [DigitChar(0)] == s;
    }
    DigitsAreBytes(s);
  }

  lemma MaxAgeAbsorbed(key: string, n: int, d: SetCookie, dates: Dates)
    requires Means(key, KMaxAge) && n < INT64_LIMIT && d.maxAge == 0
    ensures Absorbed(d, MaxAgePart(key, n), d.(maxAge := AgeOf(n)), dates)
  {
    if n == 0 {
      AbsorbNone(d, MaxAgePart(key, n), dates);
    } else {
      MaxAgeRead(n);
      AbsorbValue(d, KMaxAge, key, MaxAgeText(n), dates);
    }
  }

  lemma HttpOnlyAbsorbed(key: string, on: bool, d: SetCookie, dates: Dates)
    requires Means(key, KHttpOnly) && !d.httpOnly
    ensures Absorbed(d, FlagPart(key, on), d.(httpOnly := on), dates)
  {
    if !on {
      AbsorbNone(d, FlagPart(key, on), dates);
    } else {
      TakeFlag(d, KHttpOnly, key, dates);
      AbsorbOne(d, KHttpOnly, key, dates);
    }
  }

  lemma SecureAbsorbed(key: string, on: bool, d: SetCookie, dates: Dates)
    requires Means(key, KSecure) && !d.secure
    ensures Absorbed(d, FlagPart(key, on), d.(secure := on), dates)
  {
    if !on {
      AbsorbNone(d, FlagPart(key, on), dates);
    } else {
      TakeFlag(d, KSecure, key, dates);
      AbsorbOne(d, KSecure, key, dates);
    }
  }

  /** What a reader is given of a cookie: the date if it is printed, a negative
      MaxAge as -1, and the line itself as Raw. */
  function Restored(c: SetCookie, line: string, dates: Dates): (d: SetCookie)
  {
    SetCookie(c.name, c.value, c.path, c.domain, DateOf(c), DateText(c, dates), AgeOf(c.maxAge), c.secure, c.httpOnly,
              line, [])
  }

  /** The values Go's types and the time package can hold. */
  predicate Representable(c: SetCookie, dates: Dates)
  {
    c.maxAge < INT64_LIMIT && (Dated(c) ==> DatePrints(dates, c.expires.value))
  }

  function AttributesOf(ks: Keys, c: SetCookie, dates: Dates): (ps: seq<string>)
  {
    ValuePart(ks.path, c.path) + ValuePart(ks.domain, c.domain) + ExpiresPart(ks.expires, c, dates)
    + MaxAgePart(ks.maxAge, c.maxAge) + FlagPart(ks.httpOnly, c.httpOnly) + FlagPart(ks.secure, c.secure)
  }

  lemma AttributesAbsorbed(ks: Keys, c: SetCookie, line: string, dates: Dates)
    requires Understood(ks) && Lexical(c) && Representable(c, dates)
    ensures Absorbed(Fresh(Cookie(c.name, c.value), line), AttributesOf(ks, c, dates), Restored(c, line, dates), dates)
  {
    var s0 := Fresh(Cookie(c.name, c.value), line);
    var s1 := s0.(path := c.path);
    var s2 := s1.(domain := c.domain);
    var s3 := s2.(expires := DateOf(c), rawExpires := DateText(c, dates));
    var s4 := s3.(maxAge := AgeOf(c.maxAge));
    var s5 := s4.(httpOnly := c.httpOnly);
    var p1, p2, p3 := ValuePart(ks.path, c.path), ValuePart(ks.domain, c.domain), ExpiresPart(ks.expires, c, dates);
    var p4, p5, p6 := MaxAgePart(ks.maxAge, c.maxAge), FlagPart(ks.httpOnly, c.httpOnly), FlagPart(ks.secure, c.secure);
    ValueAbsorbed(ks.path, KPath, c.path, s0, dates);
    ValueAbsorbed(ks.domain, KDomain, c.domain, s1, dates);
    ExpiresAbsorbed(ks.expires, c, s2, dates);
    MaxAgeAbsorbed(ks.maxAge, c.maxAge, s3, dates);
    HttpOnlyAbsorbed(ks.httpOnly, c.httpOnly, s4, dates);
    SecureAbsorbed(ks.secure, c.secure, s5, dates);
    AbsorbBoth(s0, p1, s1, p2, s2, dates);
    AbsorbBoth(s0, p1 + p2, s2, p3, s3, dates);
    AbsorbBoth(s0, p1 + p2 + p3, s3, p4, s4, dates);
    AbsorbBoth(s0, p1 + p2 + p3 + p4, s4, p5, s5, dates);
    AbsorbBoth(s0, p1 + p2 + p3 + p4 + p5, s5, p6, s5.(secure := c.secure), dates);
  }

  lemma PartsSplit(ks: Keys, c: SetCookie, dates: Dates)
    ensures PartsOf(ks, c, dates) == [PairOf(Cookie(c.name, c.value))] + AttributesOf(ks, c, dates)
  {
    var p0, p1, p2 := [PairOf(Cookie(c.name, c.value))], ValuePart(ks.path, c.path), ValuePart(ks.domain, c.domain);
    var p3, p4 := ExpiresPart(ks.expires, c, dates), MaxAgePart(ks.maxAge, c.maxAge);
    var p5, p6 := FlagPart(ks.httpOnly, c.httpOnly), FlagPart(ks.secure, c.secure);
    Assoc(p0, p1, p2);
    Assoc(p0, p1 + p2, p3);
    Assoc(p0, p1 + p2 + p3, p4);
    Assoc(p0, p1 + p2 + p3 + p4, p5);
    Assoc(p0, p1 + p2 + p3 + p4 + p5, p6);
  }

  lemma PairFirst(c: Cookie)
    requires GoodCookie(c)
    ensures FirstPair(PairOf(c)) == Some(c)
  {
    PairRead(c);
    ValueIsPlain(c.value);
    assert '=' in PairOf(c);
  }

  lemma PrintedReads(ks: Keys, c: SetCookie, line: string, dates: Dates)
    requires Understood(ks) && Lexical(c) && Representable(c, dates)
    requires line == JoinParts(PartsOf(ks, c, dates))
    ensures ReadLine(line, dates) == Some(Restored(c, line, dates))
  {
    var pair, rest := Cookie(c.name, c.value), AttributesOf(ks, c, dates);
    PartsSplit(ks, c, dates);
    AttributesAbsorbed(ks, c, line, dates);
    PairIsWhole(pair);
    WholeLine(PairOf(pair), rest);
    PairFirst(pair);
    LineRead(line, pair, rest, dates);
  }

  lemma LineRead(line: string, pair: Cookie, rest: seq<string>, dates: Dates)
    requires Split(TrimSpace(line), ';') == [PairOf(pair)] + Spaced(rest)
    requires TrimSpace(PairOf(pair)) == PairOf(pair) && FirstPair(PairOf(pair)) == Some(pair)
    ensures ReadLine(line, dates) == Some(ApplyAll(Fresh(pair, line), Spaced(rest), dates))
  {
    var parts := Split(TrimSpace(line), ';');
    assert parts[0] == PairOf(pair) && parts[1..] == Spaced(rest);
  }

  lemma WholeLine(p: string, rest: seq<string>)
    requires Whole(p) && AllWhole(rest)
    ensures Split(TrimSpace(JoinParts([p] + rest)), ';') == [p] + Spaced(rest) && TrimSpace(p) == p
  {
    var ps := [p] + rest;
    assert ps[1..] == rest;
    LineSplits(ps);
    WholeTrims(p);
  }

  /** Printing and reading restores name, value, path, domain, flags, date and
      MaxAge exactly when name, value, path and domain are within the grammar. */
  lemma SetCookieRoundTrip(c: SetCookie, dates: Dates)
    requires Representable(c, dates) && Ascii(c.name) && Ascii(c.value) && Ascii(c.path) && Ascii(c.domain)
    ensures ReadLine(Printed(c, dates), dates) == Some(Restored(c, Printed(c, dates), dates)) <==> Lexical(c)
  {
    var line := Printed(c, dates);
    if Lexical(c) {
      KeysUnderstood();
      PrintedReads(KEYS, c, line, dates);
    } else if ReadLine(line, dates) == Some(Restored(c, line, dates)) {
      ReadWithin(line, dates);
    }
  }
}
