/** The first lines of messages: HTTP versions and request lines. */
module StartLines {
  import opened Text

  // ---------------------------------------------------------------------
  // ParseHTTPVersion
  // ---------------------------------------------------------------------

  const BIG := 1000000

  datatype Digits = Digits(n: nat, rest: string) | NoDigits

  predicate IsDigit(c: char)
  {
    '0' <= c <= '9'
  }

  /** atoi: the digits at the front, unless there are none or too many. */
  function Atoi(s: string): (r: Digits)
  {
    if s == "" || !IsDigit(s[0]) then NoDigits else AtoiFrom(s, 0)
  }

  function AtoiFrom(s: string, n: nat): (r: Digits)
    decreases |s|
  {
    if s == "" || !IsDigit(s[0]) then Digits(n, s)
    else
      var m := n * 10 + (s[0] as int - '0' as int);
      if m > BIG then NoDigits else AtoiFrom(s[1..], m)
  }

  datatype Version = Version(major: nat, minor: nat) | BadVersion

  /** An icecast client's "ICE/1.0" counts as HTTP/1.0. */
  function ParseHttpVersion(v: string): (r: Version)
  {
    if |v| > 4 && v[..4] == "ICE/" then Version(1, 0)
    else if |v| < 5 || v[..5] != "HTTP/" then BadVersion
    else
      var a := Atoi(v[5..]);
      if a.NoDigits? || a.rest == "" || a.rest[0] != '.' then BadVersion
      else
        var b := Atoi(a.rest[1..]);
        if b.NoDigits? || b.rest != "" then BadVersion else Version(a.n, b.n)
  }

  lemma OneDigit(c: char, rest: string)
    requires IsDigit(c) && (rest == "" || !IsDigit(rest[0]))
    ensures Atoi([c] + rest) == Digits(c as int - '0' as int, rest)
  {
    var s := [c] + rest;
    assert s[0] == c && s[1..] == rest;
    assert AtoiFrom(s, 0) == AtoiFrom(s[1..], c as int - '0' as int);
  }

  const HTTP_1 := "HTTP/1."

  /** The versions that are printed are read back. */
  lemma VersionRead(v: string, minor: char)
    requires IsDigit(minor) && v == HTTP_1 + [minor]
    ensures ParseHttpVersion(v) == Version(1, minor as int - '0' as int)
  {
    assert v[0] == 'H' && v[..5] == "HTTP/";
    var tail := "." + [minor];
    assert v[5..] == ['1'] + tail;
    OneDigit('1', tail);
    assert tail[1..] == [minor] + "";
    OneDigit(minor, "");
  }

  // ---------------------------------------------------------------------
  // Request lines
  // ---------------------------------------------------------------------

  const HTTP_11 := "HTTP/1.1"

  /** Request.write's first line. */
  function RequestLine(meth: string, uri: string): (s: string)
  {
    meth + " " + (uri + " " + HTTP_11)
  }

  datatype FirstLine = FirstLine(meth: string, uri: string, version: Version) | BadLine

  /** ReadRequest on its first line: three parts, a known version, and a URI to parse. */
  function ParseRequestLine(s: string): (r: FirstLine)
    ensures r.FirstLine? ==> ' ' !in r.meth && ' ' !in r.uri && r.uri != "" && r.version.Version?
    ensures r.FirstLine? && '\n' !in s ==> '\n' !in r.meth && '\n' !in r.uri
  {
    var i := IndexOf(s, ' ');
    if i < 0 then BadLine
    else
      var tail := s[i + 1..];
      var j := IndexOf(tail, ' ');
      if j <= 0 then BadLine
      else
        var v := ParseHttpVersion(tail[j + 1..]);
        if v.BadVersion? then BadLine else FirstLine(s[..i], tail[..j], v)
  }

  lemma SplitAtSpace(a: string, b: string)
    requires ' ' !in a
    ensures var s := a + " " + b; IndexOf(s, ' ') == |a| && s[..|a|] == a && s[|a| + 1..] == b
  {
    assert a + " " + b == a + [' '] + b;
    IndexOfSplit(a, ' ', b);
  }

  /** A method and a URI that print and parse. */
  predicate LineParts(meth: string, uri: string)
  {
    ' ' !in meth && '\n' !in meth && ' ' !in uri && '\n' !in uri && uri != ""
  }

  lemma PartsRead(meth: string, uri: string, proto: string, v: Version)
    requires LineParts(meth, uri) && ParseHttpVersion(proto) == v && v.Version?
    ensures ParseRequestLine(meth + " " + (uri + " " + proto)) == FirstLine(meth, uri, v)
  {
    SplitAtSpace(meth, uri + " " + proto);
    SplitAtSpace(uri, proto);
  }

  lemma NoNewline(meth: string, uri: string, proto: string)
    requires '\n' !in meth && '\n' !in uri && '\n' !in proto
    ensures '\n' !in meth + " " + (uri + " " + proto)
  {
  }

  lemma Version11(v: string)
    requires v == HTTP_11
    ensures ParseHttpVersion(v) == Version(1, 1) && '\n' !in v
  {
    assert v == HTTP_1 + ['1'];
    VersionRead(v, '1');
  }

  /** A printed request line is taken apart again, exactly if neither part holds
      a space and there is a URI. */
  lemma RequestLineRoundTrip(meth: string, uri: string)
    requires '\n' !in meth && '\n' !in uri
    ensures '\n' !in RequestLine(meth, uri)
    ensures ParseRequestLine(RequestLine(meth, uri)) == FirstLine(meth, uri, Version(1, 1)) <==> LineParts(meth, uri)
  {
    var proto := HTTP_11;
    Version11(proto);
    NoNewline(meth, uri, proto);
    if LineParts(meth, uri) {
      PartsRead(meth, uri, proto, Version(1, 1));
    }
  }
}
