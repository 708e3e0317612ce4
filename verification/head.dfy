/** Message heads: a start line, header fields and the empty line that ends them. */
module Head {
  import opened Text

  datatype Field = Field(key: string, value: string)

  /** http.Header. Fields of one key keep their order; the code only ever asks
      for a key, so the order of different keys does not matter. */
  type Header = seq<Field>

  function Get(h: Header, key: string): (v: string)
  {
    if h == [] then "" else if h[0].key == key then h[0].value else Get(h[1..], key)
  }

  predicate Has(h: Header, key: string)
  {
    h != [] && (h[0].key == key || Has(h[1..], key))
  }

  function Del(h: Header, key: string): (r: Header)
    ensures |r| <= |h|
    ensures forall i :: 0 <= i < |r| ==> r[i] in h && r[i].key != key
  {
    if h == [] then [] else if h[0].key == key then Del(h[1..], key) else [h[0]] + Del(h[1..], key)
  }

  function Set(h: Header, key: string, value: string): (r: Header)
    ensures forall i :: 0 <= i < |r| ==> r[i] in h || r[i] == Field(key, value)
  {
    Del(h, key) + [Field(key, value)]
  }

  lemma {:induction false} GetDel(h: Header, key: string, k: string)
    ensures Get(Del(h, key), k) == if k == key then "" else Get(h, k)
    ensures Has(Del(h, key), k) <==> k != key && Has(h, k)
  {
    if h != [] {
      GetDel(h[1..], key, k);
      if h[0].key != key {
        assert Del(h, key)[1..] == Del(h[1..], key);
      }
    }
  }

  lemma {:induction false} GetAppend(h: Header, g: Header, k: string)
    ensures Get(h + g, k) == if Has(h, k) then Get(h, k) else Get(g, k)
    ensures Has(h + g, k) <==> Has(h, k) || Has(g, k)
  {
    if h == [] {
      assert h + g == g;
    } else {
      GetAppend(h[1..], g, k);
      assert (h + g)[1..] == h[1..] + g;
    }
  }

  lemma GetOne(f: Field, k: string)
    ensures Has([f], k) <==> f.key == k
    ensures Get([f], k) == if f.key == k then f.value else ""
  {
    assert [f][1..] == [];
  }

  lemma GetSet(h: Header, key: string, value: string, k: string)
    ensures Get(Set(h, key, value), k) == if k == key then value else Get(h, k)
    ensures Has(Set(h, key, value), k) <==> k == key || Has(h, k)
  {
    var d, f := Del(h, key), [Field(key, value)];
    GetAppend(d, f, k);
    GetDel(h, key, k);
    GetOne(Field(key, value), k);
    if !Has(d, k) {
      GetAbsent(d, k);
    }
  }

  lemma {:induction false} GetAbsent(h: Header, k: string)
    requires !Has(h, k)
    ensures Get(h, k) == ""
  {
    if h != [] {
      GetAbsent(h[1..], k);
    }
  }

  // ---------------------------------------------------------------------
  // Writing (Header.WriteSubset)
  // ---------------------------------------------------------------------

  function NewlinesToSpaces(v: string): (r: string)
    ensures |r| == |v|
    ensures '\n' !in r && '\r' !in r
  {
    seq(|v|, i requires 0 <= i < |v| => if v[i] == '\n' || v[i] == '\r' then ' ' else v[i])
  }

  /** The value WriteSubset prints: no newlines, no space at the ends. */
  function Clean(v: string): (r: string)
    ensures '\n' !in r && '\r' !in r
    ensures r != "" ==> r[0] !in SPACES && r[|r| - 1] !in SPACES
  {
    TrimSpaceEnds(NewlinesToSpaces(v));
    TrimSpace(NewlinesToSpaces(v))
  }

  predicate IsClean(v: string)
  {
    '\n' !in v && '\r' !in v && (v != "" ==> v[0] !in SPACES && v[|v| - 1] !in SPACES)
  }

  lemma LowerWordIsClean(s: string)
    requires LowerWord(s)
    ensures IsClean(s)
  {
  }

  lemma CleanIdentity(v: string)
    requires IsClean(v)
    ensures Clean(v) == v
  {
    assert NewlinesToSpaces(v) == v;
    TrimSpaceIdentity(v);
  }

  function CleanField(f: Field): (r: Field)
  {
    Field(f.key, Clean(f.value))
  }

  function CleanHeader(h: Header): (r: Header)
    ensures |r| == |h|
    ensures forall i :: 0 <= i < |h| ==> r[i] == CleanField(h[i])
  {
    if h == [] then [] else [CleanField(h[0])] + CleanHeader(h[1..])
  }

  lemma {:induction false} GetClean(h: Header, k: string)
    ensures Get(CleanHeader(h), k) == Clean(Get(h, k))
    ensures Has(CleanHeader(h), k) <==> Has(h, k)
  {
    if h == [] {
      CleanIdentity("");
    } else {
      GetClean(h[1..], k);
      assert CleanHeader(h)[1..] == CleanHeader(h[1..]);
    }
  }

  lemma CleanGet(h: Header, k: string)
    requires IsClean(Get(h, k))
    ensures Get(CleanHeader(h), k) == Get(h, k) && (Has(CleanHeader(h), k) <==> Has(h, k))
  {
    GetClean(h, k);
    CleanIdentity(Get(h, k));
  }

  function LineOf(f: Field): (w: string)
  {
    f.key + ": " + Clean(f.value) + CRLF
  }

  function LinesOf(h: Header): (w: string)
  {
    if h == [] then "" else LineOf(h[0]) + LinesOf(h[1..])
  }

  // ---------------------------------------------------------------------
  // Reading (textproto.Reader)
  // ---------------------------------------------------------------------

  datatype TextLine = TextLine(text: string, rest: string) | NoLine

  /** A line without its end, "\n" or "\r\n". */
  function TextLineAt(w: string): (r: TextLine)
    ensures r.TextLine? ==> |r.rest| < |w| && '\n' !in r.text
  {
    var i := IndexOf(w, '\n');
    if i < 0 then NoLine
    else TextLine(if i > 0 && w[i - 1] == '\r' then w[..i - 1] else w[..i], w[i + 1..])
  }

  const BLANKS := {' ', '\t'}

  predicate IsBlank(c: char)
  {
    c == ' ' || c == '\t'
  }

  function TrimBlanks(s: string): (r: string)
    ensures '\n' !in s ==> '\n' !in r
  {
    TrimLeftEnds(s, BLANKS);
    TrimRight(TrimLeft(s, BLANKS), BLANKS)
  }

  /** A line, followed by the lines that continue it. */
  function LogicalLineAt(w: string): (r: TextLine)
    ensures r.TextLine? ==> |r.rest| < |w| && '\n' !in r.text
  {
    var l := TextLineAt(w);
    if l.NoLine? || l.text == "" then l else Continued(TrimBlanks(l.text), l.rest)
  }

  function Continued(text: string, w: string): (r: TextLine)
    requires '\n' !in text
    ensures r.TextLine? && |r.rest| <= |w| && '\n' !in r.text
    decreases |w|
  {
    if w == "" || !IsBlank(w[0]) then TextLine(text, w)
    else
      var l := TextLineAt(TrimLeft(w, BLANKS));
      if l.NoLine? then TextLine(text, "") else Continued(text + " " + TrimBlanks(l.text), l.rest)
  }

  /** textproto.CanonicalMIMEHeaderKey. */
  function Canonical(k: string): (r: string)
    ensures |r| == |k|
  {
    seq(|k|, i requires 0 <= i < |k| => if i == 0 || k[i - 1] == '-' then UpperChar(k[i]) else LowerChar(k[i]))
  }

  datatype Fields = Fields(header: Header, rest: string) | BadHeader(rest: string)

  /** ReadMIMEHeader. */
  function FieldsAt(w: string): (r: Fields)
    ensures |r.rest| <= |w|
    decreases |w|
  {
    var l := LogicalLineAt(w);
    if l.NoLine? then BadHeader("")
    else if l.text == "" then Fields([], l.rest)
    else
      var i := IndexOf(l.text, ':');
      if i < 0 || ' ' in l.text[..i] then BadHeader(l.rest)
      else
        var tail := FieldsAt(l.rest);
        if tail.BadHeader? then tail
        else Fields([Field(Canonical(l.text[..i]), TrimLeft(l.text[i + 1..], BLANKS))] + tail.header, tail.rest)
  }

  predicate KeyChar(c: char)
  {
    c != ':' && !IsBlank(c) && c != '\n' && c != '\r'
  }

  /** A key that prints and parses: an HTTP token. */
  predicate TokenKey(k: string)
  {
    k != "" && forall i :: 0 <= i < |k| ==> KeyChar(k[i])
  }

  predicate TokenKeys(h: Header)
  {
    forall i :: 0 <= i < |h| ==> TokenKey(h[i].key)
  }

  /** A key in the spelling that Header.Set and Header.Add give it. */
  predicate GoodKey(k: string)
  {
    TokenKey(k) && Canonical(k) == k
  }

  predicate GoodKeys(h: Header)
  {
    forall i :: 0 <= i < |h| ==> GoodKey(h[i].key)
  }

  /** What is left of a value that is printed as it is. */
  predicate Trimmed(v: string)
  {
    v != "" ==> !IsBlank(v[0]) && !IsBlank(v[|v| - 1])
  }

  /** The text a reader finds after the colon. */
  function ReadValue(v: string): (r: string)
    ensures Trimmed(v) ==> r == v
    ensures Trimmed(r)
  {
    ValueTrims(v);
    TrimLeft(TrimRight(" " + v, BLANKS), BLANKS)
  }

  lemma ValueTrims(v: string)
    ensures var r := TrimLeft(TrimRight(" " + v, BLANKS), BLANKS); (Trimmed(v) ==> r == v) && Trimmed(r)
  {
    var s := TrimRight(" " + v, BLANKS);
    TrimRightEnds(" " + v, BLANKS);
    TrimLeftEnds(s, BLANKS);
    if Trimmed(v) {
      TrimmedStays(v);
    }
  }

  lemma TrimmedStays(v: string)
    requires Trimmed(v)
    ensures TrimLeft(TrimRight(" " + v, BLANKS), BLANKS) == v
  {
    if v == "" {
      TrimRightExact("", " ", BLANKS);
      assert "" + " " == " " + v;
    } else {
      TrimRightExact(" " + v, "", BLANKS);
      assert " " + v + "" == " " + v;
      TrimLeftExact(" ", v, BLANKS);
    }
  }

  lemma CleanIsTrimmed(v: string)
    requires IsClean(v)
    ensures Trimmed(v)
  {
    assert forall c :: IsBlank(c) ==> c in SPACES;
  }

  /** A line as printed, whatever the value holds. */
  function RawLine(key: string, v: string): (w: string)
  {
    key + ": " + v + CRLF
  }

  lemma TrimAfterColon(key: string, v: string)
    requires TokenKey(key)
    ensures TrimBlanks(key + ": " + v) == key + ":" + TrimRight(" " + v, BLANKS)
  {
    var a, b := key + ":", " " + v;
    assert key + ": " + v == a + b;
    assert !IsBlank(a[0]) && a[0] == (a + b)[0];
    TrimRightKeeps(a, b, BLANKS);
  }

  /** Trimming the end of a text does not reach past a character that stays. */
  lemma {:induction false} TrimRightKeeps(a: string, b: string, cut: set<char>)
    requires a != "" && a[|a| - 1] !in cut
    ensures TrimRight(a + b, cut) == a + TrimRight(b, cut)
    decreases |b|
  {
    if b == "" {
      assert a + b == a;
    } else {
      assert (a + b)[|a + b| - 1] == b[|b| - 1];
      if b[|b| - 1] in cut {
        assert (a + b)[..|a + b| - 1] == a + b[..|b| - 1];
        TrimRightKeeps(a, b[..|b| - 1], cut);
      }
    }
  }

  /** The next line does not continue this one. */
  predicate Starts(w: string)
  {
    w != "" && !IsBlank(w[0])
  }

  lemma RawLineAt(key: string, v: string, rest: string)
    requires TokenKey(key) && '\n' !in v && Starts(rest)
    ensures var l := LogicalLineAt(RawLine(key, v) + rest);
            l.TextLine? && l.text == key + ":" + TrimRight(" " + v, BLANKS) && l.rest == rest
  {
    var text := key + ": " + v;
    assert '\n' !in text;
    RawTextLine(text, rest);
    TrimAfterColon(key, v);
  }

  lemma RawTextLine(text: string, rest: string)
    requires '\n' !in text
    ensures TextLineAt(text + CRLF + rest) == TextLine(text, rest)
  {
    var w := text + CRLF + rest;
    var head := text + "\r";
    assert w == head + ['\n'] + rest;
    IndexOfSplit(head, '\n', rest);
    assert w[..|text|] == text && w[|text|] == '\r';
    assert w[|head| + 1..] == rest;
  }

  lemma ColonAt(key: string, v: string)
    requires TokenKey(key)
    ensures var text := key + ":" + v; IndexOf(text, ':') == |key| && text[..|key|] == key && text[|key| + 1..] == v
  {
    var text := key + ":" + v;
    assert text == key + [':'] + v;
    IndexOfSplit(key, ':', v);
  }

  /** A line without a newline in its value becomes one field. */
  lemma RawStep(key: string, v: string, rest: string)
    requires TokenKey(key) && '\n' !in v && Starts(rest)
    ensures var tail := FieldsAt(rest);
            FieldsAt(RawLine(key, v) + rest) ==
              if tail.BadHeader? then tail else Fields([Field(Canonical(key), ReadValue(v))] + tail.header, tail.rest)
  {
    RawLineAt(key, v, rest);
    ColonAt(key, TrimRight(" " + v, BLANKS));
    assert ' ' !in key;
  }

  /** No field ever holds a newline. */
  lemma {:induction false} NoNewlines(w: string)
    requires FieldsAt(w).Fields?
    ensures forall i :: 0 <= i < |FieldsAt(w).header| ==> '\n' !in FieldsAt(w).header[i].value
    decreases |w|
  {
    var l := LogicalLineAt(w);
    if l.text != "" {
      NoNewlines(l.rest);
      var v := l.text[IndexOf(l.text, ':') + 1..];
      TrimLeftEnds(v, BLANKS);
    }
  }

  lemma StartsLines(h: Header, rest: string)
    requires TokenKeys(h)
    ensures Starts(LinesOf(h) + CRLF + rest)
  {
    if h != [] {
      var w := LinesOf(h) + CRLF + rest;
      assert TokenKey(h[0].key) && KeyChar(h[0].key[0]);
      assert w[0] == h[0].key[0];
    }
  }

  function CanonicalHeader(h: Header): (r: Header)
    ensures |r| == |h|
  {
    if h == [] then [] else [Field(Canonical(h[0].key), h[0].value)] + CanonicalHeader(h[1..])
  }

  lemma {:induction false} CanonicalIdentity(h: Header)
    requires GoodKeys(h)
    ensures CanonicalHeader(h) == h && TokenKeys(h)
  {
    if h != [] {
      assert GoodKey(h[0].key);
      CanonicalIdentity(h[1..]);
      Cons(h);
    }
  }

  /** A written header block is read back field by field, keys in canonical
      spelling and values cleaned, and the reader stops exactly after the empty
      line. */
  lemma {:induction false} FieldsRoundTrip(h: Header, rest: string)
    requires TokenKeys(h)
    ensures FieldsAt(LinesOf(h) + CRLF + rest) == Fields(CleanHeader(CanonicalHeader(h)), rest)
  {
    if h == [] {
      RawTextLine("", rest);
      assert LinesOf(h) + CRLF + rest == "" + CRLF + rest;
    } else {
      var v := Clean(h[0].value);
      var tail := LinesOf(h[1..]) + CRLF + rest;
      FieldsRoundTrip(h[1..], rest);
      Assoc(LineOf(h[0]), LinesOf(h[1..]), CRLF);
      Assoc(LineOf(h[0]), LinesOf(h[1..]) + CRLF, rest);
      StartsLines(h[1..], rest);
      CleanIsTrimmed(v);
      RawStep(h[0].key, v, tail);
    }
  }

  datatype MessageHead = MessageHead(start: string, header: Header)

  function HeadOf(m: MessageHead): (w: string)
  {
    m.start + CRLF + LinesOf(m.header) + CRLF
  }

  datatype ReadHead = ReadHead(head: MessageHead, rest: string) | HeadError

  function HeadAt(w: string): (r: ReadHead)
  {
    var l := TextLineAt(w);
    if l.NoLine? then HeadError
    else
      var f := FieldsAt(l.rest);
      if f.BadHeader? then HeadError else ReadHead(MessageHead(l.text, f.header), f.rest)
  }

  predicate GoodHead(m: MessageHead)
  {
    '\n' !in m.start && '\r' !in m.start && GoodKeys(m.header)
  }

  /** A written head is read back, and reading stops at the first body byte. */
  lemma HeadRoundTrip(m: MessageHead, rest: string)
    requires GoodHead(m)
    ensures HeadAt(HeadOf(m) + rest) == ReadHead(MessageHead(m.start, CleanHeader(m.header)), rest)
  {
    var block := LinesOf(m.header) + CRLF;
    Assoc(m.start + CRLF, LinesOf(m.header), CRLF);
    Assoc(m.start + CRLF, block, rest);
    RawTextLine(m.start, block + rest);
    CanonicalIdentity(m.header);
    FieldsRoundTrip(m.header, rest);
  }
}
