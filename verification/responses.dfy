/** Reading a response: the status line, the framing its head announces, and
    the body. The server's writer is in module Server. */
module Responses {
  import opened Text
  import opened Numerals
  import opened Chunked
  import opened Head
  import opened StartLines
  import opened Transfer
  import Requests

  const STATUS_NOT_MODIFIED := 304

  datatype StatusLine = StatusLine(major: int, minor: int, status: int) | BadStatusLine

  /** The first line as the server prints it. */
  function StatusLineOf(http11: bool, status: int, text: string): (s: string)
  {
    (if http11 then "HTTP/1.1" else "HTTP/1.0") + " " + (Requests.FormatInt(status) + " " + text)
  }

  /** The first line as ReadResponse takes it apart. */
  function ParseStatusLine(s: string): (r: StatusLine)
  {
    var i := IndexOf(s, ' ');
    if i < 0 then BadStatusLine
    else
      var tail := s[i + 1..];
      var j := IndexOf(tail, ' ');
      var p := ParseInt(if j < 0 then tail else tail[..j]);
      var v := ParseHttpVersion(s[..i]);
      if !p.Number? || v.BadVersion? then BadStatusLine else StatusLine(v.major, v.minor, p.n)
  }

  predicate IsStatus(status: int)
  {
    -INT64_LIMIT < status < INT64_LIMIT
  }

  lemma IntHasNoSpace(n: int)
    requires IsStatus(n)
    ensures ' ' !in Requests.FormatInt(n) && '\n' !in Requests.FormatInt(n) && '\r' !in Requests.FormatInt(n)
    ensures ParseInt(Requests.FormatInt(n)) == Number(n)
  {
    var s := Format(if n < 0 then -n else n, Ten);
    assert forall i :: 0 <= i < |s| ==> IsHexDigit(s[i]) && s[i] != ' ' && s[i] != '\n' && s[i] != '\r';
    if n < 0 {
      assert ("-" + s)[1..] == s;
      FormatParse(-n, Ten);
    } else {
      FormatParseInt(n);
    }
  }

  lemma ProtoRead(http11: bool, proto: string)
    requires proto == if http11 then "HTTP/1.1" else "HTTP/1.0"
    ensures ParseHttpVersion(proto) == Version(1, if http11 then 1 else 0) && ' ' !in proto
  {
    var minor := if http11 then '1' else '0';
    assert proto == HTTP_1 + [minor];
    VersionRead(proto, minor);
  }

  lemma StatusLineReads(proto: string, v: Version, code: string, n: int, text: string)
    requires ' ' !in proto && ' ' !in code && ParseHttpVersion(proto) == v && v.Version? && ParseInt(code) == Number(n)
    ensures ParseStatusLine(proto + " " + (code + " " + text)) == StatusLine(v.major, v.minor, n)
  {
    SplitAtSpace(proto, code + " " + text);
    SplitAtSpace(code, text);
  }

  lemma StatusLineRoundTrip(http11: bool, status: int, text: string)
    requires IsStatus(status)
    ensures ParseStatusLine(StatusLineOf(http11, status, text)) == StatusLine(1, if http11 then 1 else 0, status)
  {
    var proto := if http11 then "HTTP/1.1" else "HTTP/1.0";
    ProtoRead(http11, proto);
    IntHasNoSpace(status);
    StatusLineReads(proto, Version(1, if http11 then 1 else 0), Requests.FormatInt(status), status, text);
  }

  // ---------------------------------------------------------------------
  // ReadResponse and the body after it
  // ---------------------------------------------------------------------

  /** ReadResponse spells the method of the request in capitals first. */
  predicate AsksHead(meth: string)
  {
    ToUpper(meth) == "HEAD"
  }

  lemma HeadAsksHead(meth: string)
    requires meth == "HEAD"
    ensures AsksHead(meth)
  {
    assert ToUpper(meth) == meth;
  }

  /** What only the reader takes for HEAD. */
  lemma LowerCaseAsksHead(meth: string)
    requires meth == "head"
    ensures AsksHead(meth) && meth != "HEAD"
  {
    assert ToUpper(meth) == "HEAD" && meth[0] != "HEAD"[0];
  }

  datatype Received = Received(status: int, header: Header, body: Decoded) | Rejected

  /** ReadResponse for a request of method `meth`, then its body to the end. */
  function ReceiveAt(meth: string, w: string): (r: Received)
  {
    var h := HeadAt(w);
    if h.HeadError? then Rejected
    else
      var l := ParseStatusLine(h.head.start);
      if l.BadStatusLine? then Rejected
      else
        var t := ReadTransfer(Incoming(true, l.status, ToUpper(meth), l.major, l.minor, h.head.header));
        if t.TransferError? then Rejected
        else Received(l.status, h.head.header, BodyAt(t.framing, h.rest))
  }

  /** The framing of a response with this head, `meth` being in capitals. */
  function FramingFor(meth: string, http11: bool, status: int, header: Header): (t: Transfer)
  {
    ReadTransfer(Incoming(true, status, meth, 1, if http11 then 1 else 0, CleanHeader(header)))
  }

  lemma Reception(meth: string, http11: bool, status: int, text: string, header: Header, body: string)
    requires IsStatus(status) && '\n' !in text && '\r' !in text && GoodKeys(header)
    ensures var t := FramingFor(ToUpper(meth), http11, status, header);
            ReceiveAt(meth, HeadOf(MessageHead(StatusLineOf(http11, status, text), header)) + body)
            == if t.TransferError? then Rejected
               else Received(status, CleanHeader(header), BodyAt(t.framing, body))
  {
    var m := MessageHead(StatusLineOf(http11, status, text), header);
    IntHasNoSpace(status);
    assert '\n' !in m.start && '\r' !in m.start by {
      assert '\n' !in "HTTP/1.1 " && '\r' !in "HTTP/1.1 " && '\n' !in "HTTP/1.0 " && '\r' !in "HTTP/1.0 ";
    }
    HeadRoundTrip(m, body);
    StatusLineRoundTrip(http11, status, text);
  }

  /** An answer to HEAD, and a 304, has no body whatever its header says. */
  lemma ReadsNoBody(meth: string, http11: bool, status: int, header: Header)
    requires TrailerAnnounced(CleanHeader(header))
    requires meth == "HEAD" || (status == STATUS_NOT_MODIFIED && !Has(header, TRANSFER_ENCODING))
    ensures FramingFor(meth, http11, status, header).Transfer?
    ensures FramingFor(meth, http11, status, header).framing == BySize(0)
  {
    GetClean(header, TRANSFER_ENCODING);
  }

  /** Without a length or chunks, a body ends when the connection does. */
  lemma ReadsToEof(meth: string, http11: bool, status: int, header: Header)
    requires TrailerAnnounced(CleanHeader(header)) && meth != "HEAD" && BodyAllowedForStatus(status)
    requires !Has(header, TRANSFER_ENCODING) && Get(header, CONTENT_LENGTH) == ""
    requires !IsByteranges(Clean(Get(header, CONTENT_TYPE)))
    ensures FramingFor(meth, http11, status, header) == Transfer(ToEof, -1, true)
  {
    var c := CleanHeader(header);
    GetClean(header, TRANSFER_ENCODING);
    GetClean(header, CONTENT_LENGTH);
    GetClean(header, CONTENT_TYPE);
    CleanIdentity("");
    TrimSpaceIdentity("");
    var m := Incoming(true, status, meth, 1, if http11 then 1 else 0, c);
    assert FixTransferEncoding(meth, c) == Encodings([]);
    assert FixLength(m, []) == Length(-1);
  }

  /** A status without a body hides one that is not chunked. */
  lemma ReadsNoBodyStatus(meth: string, http11: bool, status: int, header: Header)
    requires TrailerAnnounced(CleanHeader(header)) && meth != "HEAD" && !BodyAllowedForStatus(status)
    requires !Has(header, TRANSFER_ENCODING)
    ensures FramingFor(meth, http11, status, header).Transfer?
    ensures FramingFor(meth, http11, status, header).framing == BySize(0)
  {
    GetClean(header, TRANSFER_ENCODING);
  }
}
