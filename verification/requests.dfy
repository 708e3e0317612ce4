/** Requests written by transferWriter and read back by ReadRequest, one after
    another on one connection. */
module Requests {
  import opened Text
  import opened Numerals
  import opened Chunked
  import opened Head
  import opened StartLines
  import opened Transfer

  /** The fields of a Request that Write consults. `body` holds all the bytes
      its Body will deliver. */
  datatype Request = Request(
    meth: string, uri: string, host: string, agent: string, header: Header,
    atLeast11: bool, body: Option<string>, contentLength: int, close: bool, te: seq<string>)

  /** transferWriter after newTransferWriter. */
  datatype Writer = Writer(meth: string, body: Option<string>, contentLength: int, close: bool, te: seq<string>)

  function BodyText(b: Option<string>): (s: string)
  {
    if b.Some? then b.value else ""
  }

  /** newTransferWriter for a Request. With no length declared it reads one byte
      to see whether there is a body, and puts that byte back. */
  function NewTransferWriter(r: Request): (w: Option<Writer>)
  {
    if r.contentLength != 0 && r.body.None? then None
    else
      var open := r.body.Some? && |r.te| == 0 && r.atLeast11;
      var probe := open && r.contentLength == 0;
      var empty := probe && r.body.value == "";
      var body := if empty then None
                  else if probe then Some(r.body.value[..1] + r.body.value[1..])
                  else r.body;
      var length := if probe && !empty then -1 else r.contentLength;
      var te := if !r.atLeast11 || body.None? then []
                else if open && length < 0 then ["chunked"]
                else r.te;
      Some(Writer(r.meth, body,
                  if IsChunked(te) then -1 else if body.None? then 0 else length,
                  r.close, te))
  }

  predicate ShouldSendContentLength(t: Writer)
  {
    !IsChunked(t.te) &&
    (t.contentLength > 0 || t.meth == "POST" || t.meth == "PUT" || (t.contentLength == 0 && IsIdentity(t.te)))
  }

  function FormatInt(n: int): (s: string)
  {
    if n < 0 then "-" + Format(-n, Ten) else Format(n, Ten)
  }

  /** transferWriter.WriteHeader, no trailer being set. */
  function TransferFields(t: Writer): (h: Header)
  {
    (if t.close then [Field(CONNECTION, "close")] else [])
    + if ShouldSendContentLength(t) then [Field(CONTENT_LENGTH, FormatInt(t.contentLength))]
      else if IsChunked(t.te) then [Field(TRANSFER_ENCODING, "chunked")]
      else []
  }

  /** The caller's header without the keys Write handles itself. */
  function Excluded(h: Header): (r: Header)
  {
    Del(Del(Del(Del(Del(h, HOST), USER_AGENT), CONTENT_LENGTH), TRANSFER_ENCODING), "Trailer")
  }

  /** valueOrDefault(req.Method, "GET"). */
  function MethodSent(r: Request): (m: string)
  {
    if r.meth == "" then "GET" else r.meth
  }

  const HOST := "Host"
  const USER_AGENT := "User-Agent"

  /** The two header lines that are printed as they are. */
  function LeadLines(r: Request): (w: string)
  {
    RawLine(HOST, r.host) + if r.agent == "" then "" else RawLine(USER_AGENT, r.agent)
  }

  /** What those two lines are meant to say. */
  function Lead(r: Request): (h: Header)
  {
    [Field(HOST, r.host)] + if r.agent == "" then [] else [Field(USER_AGENT, r.agent)]
  }

  /** The header lines that go through WriteSubset or hold nothing to clean. */
  function RestFields(r: Request, t: Writer): (h: Header)
  {
    TransferFields(t) + Excluded(r.header)
  }

  /** All of a request up to its body. */
  function WrittenHead(r: Request, t: Writer): (w: string)
  {
    RequestLine(MethodSent(r), r.uri) + CRLF + (LeadLines(r) + (LinesOf(RestFields(r, t)) + CRLF))
  }

  /** WriteBody: the bytes it sends, or None when it fails because the declared
      length and the body disagree. `pieces` is how io.Copy happened to cut the
      body; only the chunked coding shows it. */
  function BodyWire(t: Writer, pieces: seq<string>): (w: Option<string>)
  {
    if t.body.Some? && IsChunked(t.te) then Some(ChunksOf(pieces) + "0\r\n" + CRLF)
    else if t.contentLength == -1 || t.contentLength == |BodyText(t.body)| then Some(BodyText(t.body))
    else None
  }

  /** The declared length is honoured or refused: a write succeeds exactly when
      the body is chunked, of undeclared length, or as long as declared. */
  lemma WriteAcceptedIff(r: Request, pieces: seq<string>)
    requires NewTransferWriter(r).Some?
    ensures BodyWire(NewTransferWriter(r).value, pieces).Some? <==>
            r.contentLength == |BodyText(r.body)|
            || r.contentLength == -1
            || (r.atLeast11 && r.body.Some? &&
                (IsChunked(r.te) || (r.te == [] && r.contentLength <= 0)))
  {
  }

  /** io.Copy into a chunked writer, over a Body that delivers its bytes in
      pieces of any size. */
  method CopyChunks(body: string) returns (wire: string, ghost pieces: seq<string>)
    ensures Concat(pieces) == body && wire == ChunksOf(pieces) + "0\r\n"
    ensures |body| < INT64_LIMIT ==> Decode(0, wire + CRLF) == Decoded(body, Eof, CRLF)
  {
    pieces := [];
    var left := body;
    ghost var done := "";
    var cw := new ChunkedWriter();
    while left != ""
      invariant Concat(pieces) == done && done + left == body
      invariant cw.wire == ChunksOf(pieces)
      decreases |left|
    {
      var k: nat :| 0 < k <= |left|;
      var p := left[..k];
      var _ := cw.Write(p);
      ChunksOfAppend(pieces, p);
      ConcatOne(pieces, p);
      CutMoved(done, left, k);
      pieces, done, left := pieces + [p], done + p, left[k..];
    }
    cw.Close();
    wire := cw.wire;
    if |body| < INT64_LIMIT {
      PiecesSized(pieces);
      DecodeUndoesWrites(pieces, CRLF);
    }
  }

  lemma CutMoved(done: string, left: string, k: nat)
    requires k <= |left|
    ensures done + left[..k] + left[k..] == done + left
  {
    assert left == left[..k] + left[k..];
    Assoc(done, left[..k], left[k..]);
  }

  /** WriteBody. */
  method WriteBody(t: Writer) returns (wire: string, ok: bool, ghost pieces: seq<string>)
    requires IsChunked(t.te) ==> t.contentLength == -1 && t.body.Some?
    ensures Concat(pieces) == BodyText(t.body)
    ensures ok <==> IsChunked(t.te) || t.contentLength == -1 || t.contentLength == |BodyText(t.body)|
    ensures ok && !IsChunked(t.te) ==> wire == BodyText(t.body)
    ensures ok && IsChunked(t.te) && |BodyText(t.body)| < INT64_LIMIT ==>
              Decode(0, wire) == Decoded(BodyText(t.body), Eof, CRLF)
    ensures ok <==> BodyWire(t, pieces).Some?
    ensures ok ==> wire == BodyWire(t, pieces).value
  {
    wire, pieces := "", [];
    var ncopy := 0;
    if t.body.Some? {
      var left := t.body.value;
      if IsChunked(t.te) {
        wire, pieces := CopyChunks(left);
      } else {
        ConcatOne([], left);
        pieces := [] + [left];
        if t.contentLength == -1 {
          wire, ncopy := left, |left|;
        } else {
          var n := if t.contentLength < 0 then 0 else if t.contentLength < |left| then t.contentLength else |left|;
          wire, ncopy := left[..n], n;
          ncopy := ncopy + |left[n..]|;
        }
      }
    }
    if t.contentLength != -1 && t.contentLength != ncopy {
      return wire, false, pieces;
    }
    if IsChunked(t.te) {
      wire := wire + CRLF;
    }
    ok := true;
  }

  // ---------------------------------------------------------------------
  // Reading a request back
  // ---------------------------------------------------------------------

  datatype RequestHead = RequestHead(meth: string, uri: string, header: Header)

  /** What ReadRequest and reading the body to its end give. */
  datatype Received = Received(head: RequestHead, framing: Framing, body: Decoded) | Rejected

  function ReceiveAt(w: string): (r: Received)
  {
    var h := HeadAt(w);
    if h.HeadError? then Rejected
    else
      var l := ParseRequestLine(h.head.start);
      var t := ReadTransfer(IncomingRequest(h.head.header));
      if l.BadLine? || t.TransferError? then Rejected
      else Received(RequestHead(l.meth, l.uri, h.head.header), t.framing, BodyAt(t.framing, h.rest))
  }

  predicate GoodRequest(r: Request)
  {
    && GoodKeys(r.header)
    && |BodyText(r.body)| < INT64_LIMIT && -INT64_LIMIT <= r.contentLength < INT64_LIMIT
  }

  /** The header a reader should find: Host and User-Agent as given. */
  function ReadHeader(r: Request, t: Writer): (h: Header)
  {
    Lead(r) + CleanHeader(RestFields(r, t))
  }

  function SentHead(r: Request, t: Writer): RequestHead
  {
    RequestHead(MethodSent(r), r.uri, ReadHeader(r, t))
  }

  lemma ExcludedKeys(h: Header, k: string)
    requires k == CONTENT_LENGTH || k == TRANSFER_ENCODING || k == "Trailer"
    ensures !Has(Excluded(h), k)
  {
    var h1 := Del(h, HOST);
    var h2 := Del(h1, USER_AGENT);
    var h3 := Del(h2, CONTENT_LENGTH);
    GetDel(h2, CONTENT_LENGTH, k);
    GetDel(h3, TRANSFER_ENCODING, k);
    GetDel(Del(h3, TRANSFER_ENCODING), "Trailer", k);
  }

  lemma {:induction false} DelKeepsGoodKeys(h: Header, k: string)
    requires GoodKeys(h)
    ensures GoodKeys(Del(h, k))
  {
    var d := Del(h, k);
    forall i | 0 <= i < |d| ensures GoodKey(d[i].key) {
      assert d[i] in h;
    }
  }

  lemma ExcludedGoodKeys(h: Header)
    requires GoodKeys(h)
    ensures GoodKeys(Excluded(h))
  {
    var h1 := Del(h, HOST);
    var h2 := Del(h1, USER_AGENT);
    var h3 := Del(h2, CONTENT_LENGTH);
    DelKeepsGoodKeys(h, HOST);
    DelKeepsGoodKeys(h1, USER_AGENT);
    DelKeepsGoodKeys(h2, CONTENT_LENGTH);
    DelKeepsGoodKeys(h3, TRANSFER_ENCODING);
    DelKeepsGoodKeys(Del(h3, TRANSFER_ENCODING), "Trailer");
  }

  lemma KeysDiffer()
    ensures |CONTENT_LENGTH| == 14 && |TRANSFER_ENCODING| == 17 && |CONNECTION| == 10
    ensures |"Trailer"| == 7 && |HOST| == 4 && |USER_AGENT| == 10
  {
  }

  lemma LeadKeys(r: Request, k: string)
    requires k == CONTENT_LENGTH || k == TRANSFER_ENCODING || k == "Trailer"
    ensures !Has(Lead(r), k)
  {
    KeysDiffer();
    GetOne(Field(HOST, r.host), k);
    if r.agent == "" {
      assert Lead(r) == [Field(HOST, r.host)];
    } else {
      GetOne(Field(USER_AGENT, r.agent), k);
      GetAppend([Field(HOST, r.host)], [Field(USER_AGENT, r.agent)], k);
    }
  }

  /** Of the framing keys, a written request carries only what the writer chose. */
  lemma FramingKeys(r: Request, t: Writer, k: string)
    requires k == CONTENT_LENGTH || k == TRANSFER_ENCODING || k == "Trailer"
    ensures Has(RestFields(r, t), k) <==> Has(TransferFields(t), k)
    ensures Get(RestFields(r, t), k) == Get(TransferFields(t), k)
  {
    ExcludedKeys(r.header, k);
    GetAbsent(Excluded(r.header), k);
    GetAppend(TransferFields(t), Excluded(r.header), k);
    if !Has(TransferFields(t), k) {
      GetAbsent(TransferFields(t), k);
    }
  }

  lemma WriterKeys(t: Writer)
    ensures Has(TransferFields(t), CONTENT_LENGTH) <==> ShouldSendContentLength(t)
    ensures ShouldSendContentLength(t) ==> Get(TransferFields(t), CONTENT_LENGTH) == FormatInt(t.contentLength)
    ensures Has(TransferFields(t), TRANSFER_ENCODING) <==> IsChunked(t.te)
    ensures IsChunked(t.te) ==> Get(TransferFields(t), TRANSFER_ENCODING) == "chunked"
    ensures !Has(TransferFields(t), "Trailer")
  {
    var c := if t.close then [Field(CONNECTION, "close")] else [];
    var g := if ShouldSendContentLength(t) then [Field(CONTENT_LENGTH, FormatInt(t.contentLength))]
             else if IsChunked(t.te) then [Field(TRANSFER_ENCODING, "chunked")]
             else [];
    assert TransferFields(t) == c + g;
    KeysDiffer();
    WriterKey(t, c, g, CONTENT_LENGTH);
    WriterKey(t, c, g, TRANSFER_ENCODING);
    WriterKey(t, c, g, "Trailer");
  }

  lemma WriterKey(t: Writer, c: Header, g: Header, k: string)
    requires c == if t.close then [Field(CONNECTION, "close")] else []
    requires |g| <= 1 && |k| != |CONNECTION|
    ensures Has(c + g, k) <==> g != [] && g[0].key == k
    ensures g != [] && g[0].key == k ==> Get(c + g, k) == g[0].value
  {
    GetAppend(c, g, k);
    GetOne(Field(CONNECTION, "close"), k);
    if g != [] {
      assert g == [g[0]];
      GetOne(g[0], k);
    }
  }

  lemma DecimalIsClean(n: nat)
    ensures IsClean(Format(n, Ten)) && Format(n, Ten) != ""
  {
    var s := Format(n, Ten);
    assert IsHexDigit(s[0]) && IsHexDigit(s[|s| - 1]);
    assert forall i :: 0 <= i < |s| ==> IsHexDigit(s[i]);
  }

  lemma LengthParses(n: int)
    requires -1 <= n < INT64_LIMIT
    ensures IsClean(FormatInt(n)) && FormatInt(n) != "" && ParseInt(FormatInt(n)) == Number(n)
  {
    if n == -1 {
      assert Format(1, Ten) == "1" && FormatInt(n) == "-1" && "-1"[1..] == "1";
      FormatParse(1, Ten);
    } else {
      DecimalIsClean(n);
      FormatParseInt(n);
    }
  }

  /** The framing ReadRequest picks is the one the writer used. */
  lemma FramingAgrees(r: Request, t: Writer)
    requires -1 <= t.contentLength < INT64_LIMIT && (IsChunked(t.te) ==> t.contentLength == -1)
    ensures var got := ReadTransfer(IncomingRequest(ReadHeader(r, t)));
            if IsChunked(t.te) then got == Transfer(ByChunks, -1, false)
            else if !ShouldSendContentLength(t) then got == Transfer(BySize(0), 0, false)
            else if t.contentLength == -1 then got == TransferError
            else got == Transfer(BySize(t.contentLength), t.contentLength, false)
  {
    var m := IncomingRequest(ReadHeader(r, t));
    WrittenKeys(r, t);
    if IsChunked(t.te) {
      ReadsChunked(m);
    } else if ShouldSendContentLength(t) {
      LengthParses(t.contentLength);
      ReadsLength(m, FormatInt(t.contentLength));
    } else {
      ReadsNoLength(m);
    }
  }

  /** The framing keys of a written request, as the reader finds them. */
  lemma WrittenKeys(r: Request, t: Writer)
    requires -1 <= t.contentLength < INT64_LIMIT
    ensures var c := ReadHeader(r, t);
            && (Has(c, TRANSFER_ENCODING) <==> IsChunked(t.te))
            && (IsChunked(t.te) ==> Get(c, TRANSFER_ENCODING) == "chunked")
            && Get(c, CONTENT_LENGTH) == (if ShouldSendContentLength(t) then FormatInt(t.contentLength) else "")
            && Get(c, "Trailer") == ""
  {
    WrittenLength(r, t);
    WrittenEncoding(r, t, "chunked");
    WrittenTrailer(r, t);
  }

  lemma WrittenLength(r: Request, t: Writer)
    requires -1 <= t.contentLength < INT64_LIMIT
    ensures Get(ReadHeader(r, t), CONTENT_LENGTH)
         == if ShouldSendContentLength(t) then FormatInt(t.contentLength) else ""
  {
    WriterKeys(t);
    WrittenKey(r, t, CONTENT_LENGTH);
    LengthParses(t.contentLength);
  }

  lemma WrittenEncoding(r: Request, t: Writer, v: string)
    requires v == "chunked"
    ensures var c := ReadHeader(r, t);
            && (Has(c, TRANSFER_ENCODING) <==> IsChunked(t.te))
            && (IsChunked(t.te) ==> Get(c, TRANSFER_ENCODING) == v)
  {
    LowerWordIsClean(v);
    WriterKeys(t);
    CodingWritten(r, t, TRANSFER_ENCODING, v);
  }

  lemma CodingWritten(r: Request, t: Writer, k: string, v: string)
    requires k == TRANSFER_ENCODING && IsClean(v)
    requires (Has(TransferFields(t), k) <==> IsChunked(t.te)) && (IsChunked(t.te) ==> Get(TransferFields(t), k) == v)
    ensures var c := ReadHeader(r, t); (Has(c, k) <==> IsChunked(t.te)) && (IsChunked(t.te) ==> Get(c, k) == v)
  {
    WrittenKey(r, t, k);
  }

  lemma WrittenTrailer(r: Request, t: Writer)
    ensures Get(ReadHeader(r, t), "Trailer") == ""
  {
    WriterKeys(t);
    WrittenKey(r, t, "Trailer");
  }

  lemma WrittenKey(r: Request, t: Writer, k: string)
    requires k == CONTENT_LENGTH || k == TRANSFER_ENCODING || k == "Trailer"
    ensures var c := ReadHeader(r, t);
            && (Has(c, k) <==> Has(TransferFields(t), k))
            && (Has(c, k) && IsClean(Get(TransferFields(t), k)) ==> Get(c, k) == Get(TransferFields(t), k))
            && (!Has(c, k) ==> Get(c, k) == "")
  {
    var h := RestFields(r, t);
    FramingKeys(r, t, k);
    GetClean(h, k);
    LeadKeys(r, k);
    GetAppend(Lead(r), CleanHeader(h), k);
    if IsClean(Get(h, k)) {
      CleanIdentity(Get(h, k));
    }
    if !Has(h, k) {
      GetAbsent(CleanHeader(h), k);
    }
  }

  /** The caller can tell beforehand whether the body will be delimited. */
  predicate Delimited(r: Request)
  {
    r.body.None? || r.contentLength != -1 || (r.atLeast11 && (r.te == [] || IsChunked(r.te)))
  }

  /** Method and URI without spaces or newlines, Host and User-Agent without
      newlines or blanks at their ends. */
  predicate Printable(r: Request)
  {
    && LineParts(MethodSent(r), r.uri)
    && '\n' !in r.host && Trimmed(r.host)
    && '\n' !in r.agent && Trimmed(r.agent)
  }

  predicate Recovered(r: Request, t: Writer, pieces: seq<string>, after: string)
    requires BodyWire(t, pieces).Some?
  {
    var got := ReceiveAt(WrittenHead(r, t) + BodyWire(t, pieces).value + after);
    && got.Received?
    && got.head == SentHead(r, t)
    && got.body == Decoded(BodyText(r.body), Eof, after)
  }

  lemma RestFieldsGood(r: Request, t: Writer)
    requires GoodRequest(r)
    ensures GoodKeys(RestFields(r, t))
  {
    ExcludedGoodKeys(r.header);
    FixedKeysGood();
    assert GoodKeys(TransferFields(t));
  }

  /** Capitals at the start and after a dash, and nowhere else. */
  predicate Capitalised(k: string)
  {
    forall i :: 0 <= i < |k| ==> KeyChar(k[i]) && if i == 0 || k[i - 1] == '-' then !('a' <= k[i] <= 'z') else !('A' <= k[i] <= 'Z')
  }

  lemma CapitalisedIsGood(k: string)
    requires k != "" && Capitalised(k)
    ensures GoodKey(k)
  {
    forall i | 0 <= i < |k| ensures Canonical(k)[i] == k[i] {
      assert KeyChar(k[i]);
    }
  }

  lemma HostKeys()
    ensures GoodKey(HOST) && GoodKey(USER_AGENT)
  {
    CapitalisedIsGood(HOST);
    CapitalisedIsGood(USER_AGENT);
  }

  lemma LengthKey()
    ensures GoodKey(CONTENT_LENGTH)
  {
    CapitalisedIsGood(CONTENT_LENGTH);
  }

  lemma EncodingKey()
    ensures GoodKey(TRANSFER_ENCODING)
  {
    CapitalisedIsGood(TRANSFER_ENCODING);
  }

  lemma ConnectionIsGood()
    ensures GoodKey(CONNECTION)
  {
    CapitalisedIsGood(CONNECTION);
  }

  lemma FixedKeysGood()
    ensures GoodKey(HOST) && GoodKey(USER_AGENT)
    ensures GoodKey(CONNECTION) && GoodKey(CONTENT_LENGTH) && GoodKey(TRANSFER_ENCODING)
  {
    HostKeys();
    LengthKey();
    EncodingKey();
    ConnectionIsGood();
  }

  // ---------------------------------------------------------------------
  // The head is read back
  // ---------------------------------------------------------------------

  /** What a reader makes of the two raw lines, if they hold no newline. */
  function LeadRead(r: Request): (h: Header)
  {
    [Field(HOST, ReadValue(r.host))] + if r.agent == "" then [] else [Field(USER_AGENT, ReadValue(r.agent))]
  }

  lemma RawFieldStep(key: string, v: string, rest: string)
    requires GoodKey(key) && '\n' !in v && Starts(rest) && FieldsAt(rest).Fields?
    ensures FieldsAt(RawLine(key, v) + rest) == Fields([Field(key, ReadValue(v))] + FieldsAt(rest).header, FieldsAt(rest).rest)
  {
    RawStep(key, v, rest);
  }

  lemma StartsRaw(key: string, v: string, rest: string)
    requires GoodKey(key)
    ensures Starts(RawLine(key, v) + rest)
  {
    assert KeyChar(key[0]) && (RawLine(key, v) + rest)[0] == key[0];
  }

  lemma TwoRawFields(k1: string, v1: string, k2: string, v2: string, rest: string)
    requires GoodKey(k1) && GoodKey(k2) && '\n' !in v1 && '\n' !in v2 && Starts(rest) && FieldsAt(rest).Fields?
    ensures FieldsAt(RawLine(k1, v1) + RawLine(k2, v2) + rest)
         == Fields([Field(k1, ReadValue(v1))] + [Field(k2, ReadValue(v2))] + FieldsAt(rest).header, FieldsAt(rest).rest)
  {
    var second := RawLine(k2, v2);
    Assoc(RawLine(k1, v1), second, rest);
    RawFieldStep(k2, v2, rest);
    StartsRaw(k2, v2, rest);
    RawFieldStep(k1, v1, second + rest);
    Assoc([Field(k1, ReadValue(v1))], [Field(k2, ReadValue(v2))], FieldsAt(rest).header);
  }

  lemma LeadIsRead(r: Request, rest: string)
    requires '\n' !in r.host && '\n' !in r.agent && Starts(rest) && FieldsAt(rest).Fields?
    ensures FieldsAt(LeadLines(r) + rest) == Fields(LeadRead(r) + FieldsAt(rest).header, FieldsAt(rest).rest)
  {
    HostKeys();
    if r.agent == "" {
      Unadded(RawLine(HOST, r.host));
      RawFieldStep(HOST, r.host, rest);
      Unadded([Field(HOST, ReadValue(r.host))]);
    } else {
      TwoRawFields(HOST, r.host, USER_AGENT, r.agent, rest);
    }
  }

  lemma Unadded<T>(s: seq<T>)
    ensures s + [] == s
  {
  }

  lemma FieldsAreRead(r: Request, t: Writer, rest: string)
    requires GoodRequest(r) && '\n' !in r.host && '\n' !in r.agent
    ensures FieldsAt(LeadLines(r) + (LinesOf(RestFields(r, t)) + CRLF) + rest)
         == Fields(LeadRead(r) + CleanHeader(RestFields(r, t)), rest)
  {
    var h := RestFields(r, t);
    var w := LinesOf(h) + CRLF + rest;
    RestFieldsGood(r, t);
    CanonicalIdentity(h);
    FieldsRoundTrip(h, rest);
    StartsLines(h, rest);
    LeadIsRead(r, w);
    Assoc(LeadLines(r), LinesOf(h) + CRLF, rest);
  }

  /** Where the first line of a request ends. */
  lemma FirstLineEnds(r: Request, t: Writer, rest: string)
    requires '\n' !in MethodSent(r) && '\n' !in r.uri
    ensures TextLineAt(WrittenHead(r, t) + rest)
         == TextLine(RequestLine(MethodSent(r), r.uri), LeadLines(r) + (LinesOf(RestFields(r, t)) + CRLF) + rest)
  {
    var line := RequestLine(MethodSent(r), r.uri);
    var fields := LeadLines(r) + (LinesOf(RestFields(r, t)) + CRLF);
    RequestLineRoundTrip(MethodSent(r), r.uri);
    Assoc(line + CRLF, fields, rest);
    RawTextLine(line, fields + rest);
  }

  lemma HeadIsRead(r: Request, t: Writer, rest: string)
    requires GoodRequest(r) && '\n' !in MethodSent(r) && '\n' !in r.uri && '\n' !in r.host && '\n' !in r.agent
    ensures HeadAt(WrittenHead(r, t) + rest)
         == ReadHead(MessageHead(RequestLine(MethodSent(r), r.uri), LeadRead(r) + CleanHeader(RestFields(r, t))), rest)
  {
    FirstLineEnds(r, t, rest);
    FieldsAreRead(r, t, rest);
  }

  /** A request that is received as it was sent was printable. */
  lemma ReceivedIsPrintable(r: Request, t: Writer, rest: string)
    requires GoodRequest(r)
    requires var got := ReceiveAt(WrittenHead(r, t) + rest); got.Received? && got.head == SentHead(r, t)
    ensures Printable(r)
  {
    HeadHasNoNewlines(WrittenHead(r, t) + rest, SentHead(r, t));
    LeadValues(r, t, ReadHeader(r, t));
    HeadIsRead(r, t, rest);
    LeadTrimmed(r, t);
  }

  lemma HeadHasNoNewlines(w: string, head: RequestHead)
    requires ReceiveAt(w).Received? && ReceiveAt(w).head == head
    ensures LineParts(head.meth, head.uri)
    ensures forall i :: 0 <= i < |head.header| ==> '\n' !in head.header[i].value
  {
    NoNewlines(TextLineAt(w).rest);
  }

  lemma LeadTrimmed(r: Request, t: Writer)
    requires LeadRead(r) + CleanHeader(RestFields(r, t)) == ReadHeader(r, t)
    ensures Trimmed(r.host) && Trimmed(r.agent)
  {
    var h := LeadRead(r) + CleanHeader(RestFields(r, t));
    assert h[0] == LeadRead(r)[0];
    LeadValues(r, t, h);
    if r.agent != "" {
      assert h[1] == LeadRead(r)[1];
    }
  }

  lemma LeadValues(r: Request, t: Writer, h: Header)
    requires h == ReadHeader(r, t)
    ensures |h| > 0 && h[0].value == r.host && (r.agent != "" ==> |h| > 1 && h[1].value == r.agent)
  {
    assert h[0] == Lead(r)[0];
    if r.agent != "" {
      assert h[1] == Lead(r)[1];
    }
  }

  /** The body bytes WriteBody sends decode to the body, under the framing that
      WriteHeader announced. */
  lemma BodyAgrees(t: Writer, pieces: seq<string>, after: string)
    requires IsChunked(t.te) ==> t.body.Some?
    requires BodyWire(t, pieces).Some? && Concat(pieces) == BodyText(t.body) && |BodyText(t.body)| < INT64_LIMIT
    ensures IsChunked(t.te) ==>
              BodyAt(ByChunks, BodyWire(t, pieces).value + after) == Decoded(BodyText(t.body), Eof, after)
    ensures !IsChunked(t.te) ==> BodyWire(t, pieces).value == BodyText(t.body)
  {
    if IsChunked(t.te) {
      var w := ChunksOf(pieces) + "0\r\n";
      Assoc(w, CRLF, after);
      PiecesSized(pieces);
      DecodeUndoesWrites(pieces, CRLF + after);
      assert (CRLF + after)[..2] == CRLF && (CRLF + after)[2..] == after;
      assert Concat(pieces) + "" == Concat(pieces);
    }
  }

  lemma {:induction false} PiecesSized(pieces: seq<string>)
    requires |Concat(pieces)| < INT64_LIMIT
    ensures SliceSized(pieces)
  {
    if pieces != [] {
      PiecesSized(pieces[1..]);
      forall i | 0 <= i < |pieces| ensures |pieces[i]| < INT64_LIMIT {
        if i > 0 {
          assert pieces[i] == pieces[1..][i - 1];
        }
      }
    }
  }

  lemma SizedExact(s: string, after: string, n: nat)
    ensures n == |s| ==> Sized(n, s + after) == Decoded(s, Eof, after)
    ensures n == 0 && s != "" ==> Sized(n, s + after) != Decoded(s, Eof, after)
  {
    var w := s + after;
    assert w[..|s|] == s && w[|s|..] == after;
  }

  /** A successfully written request, followed by anything, is read back head
      and body, with the reader left at what follows, exactly when it was
      printable and its body was delimited; an undelimited body survives only if
      it is empty and no Content-Length had to be sent for it. */
  lemma RequestRoundTrip(r: Request, pieces: seq<string>, after: string)
    requires GoodRequest(r) && NewTransferWriter(r).Some?
    requires BodyWire(NewTransferWriter(r).value, pieces).Some? && Concat(pieces) == BodyText(r.body)
    ensures Recovered(r, NewTransferWriter(r).value, pieces, after) <==>
            Printable(r) && (Delimited(r) || (BodyText(r.body) == "" && r.meth != "POST" && r.meth != "PUT"))
  {
    var t := NewTransferWriter(r).value;
    var w := BodyWire(t, pieces).value;
    Assoc(WrittenHead(r, t), w, after);
    if Printable(r) {
      PrintableRoundTrip(r, t, pieces, after);
    } else if Recovered(r, t, pieces, after) {
      ReceivedIsPrintable(r, t, w + after);
    }
  }

  lemma PrintableRoundTrip(r: Request, t: Writer, pieces: seq<string>, after: string)
    requires GoodRequest(r) && NewTransferWriter(r) == Some(t) && Printable(r)
    requires BodyWire(t, pieces).Some? && Concat(pieces) == BodyText(r.body)
    ensures Recovered(r, t, pieces, after) <==>
            Delimited(r) || (BodyText(r.body) == "" && r.meth != "POST" && r.meth != "PUT")
  {
    WriterState(r);
    Reception(r, t, pieces, after);
    FramingAgrees(r, t);
    BodyAgrees(t, pieces, after);
    if !IsChunked(t.te) {
      SizedExact(BodyText(r.body), after, |BodyText(r.body)|);
      SizedExact(BodyText(r.body), after, 0);
    }
  }

  /** Reading a written request comes down to the framing and the body bytes. */
  lemma Reception(r: Request, t: Writer, pieces: seq<string>, after: string)
    requires GoodRequest(r) && BodyWire(t, pieces).Some? && Printable(r)
    ensures var got := ReadTransfer(IncomingRequest(ReadHeader(r, t)));
            var w := BodyWire(t, pieces).value;
            ReceiveAt(WrittenHead(r, t) + w + after)
            == if got.TransferError? then Rejected
               else Received(SentHead(r, t), got.framing, BodyAt(got.framing, w + after))
  {
    var w := BodyWire(t, pieces).value;
    Assoc(WrittenHead(r, t), w, after);
    HeadIsRead(r, t, w + after);
    RequestLineRoundTrip(MethodSent(r), r.uri);
  }

  /** An HTTP/1.0 request with a body of undeclared length: the write succeeds,
      and no reader finds the body. */
  lemma OldRequestLost(r: Request, pieces: seq<string>, after: string)
    requires GoodRequest(r) && !r.atLeast11 && r.contentLength == -1
    requires r.body.Some? && r.body.value != "" && Concat(pieces) == r.body.value
    ensures NewTransferWriter(r).Some? && BodyWire(NewTransferWriter(r).value, pieces).Some?
    ensures !Recovered(r, NewTransferWriter(r).value, pieces, after)
  {
    RequestRoundTrip(r, pieces, after);
  }

  // ---------------------------------------------------------------------
  // A User-Agent with a line of its own
  // ---------------------------------------------------------------------

  /** "a", a new line, and there "k: v". */
  function TwoLines(a: string, k: string, v: string): (s: string)
  {
    a + CRLF + (k + ": " + v)
  }

  lemma TwoLinesPrinted(key: string, a: string, k: string, v: string)
    ensures RawLine(key, TwoLines(a, k, v)) == RawLine(key, a) + RawLine(k, v)
  {
    var lead, line := key + ": ", k + ": " + v;
    Assoc(lead, a + CRLF, line);
    Assoc(lead, a, CRLF);
    Assoc(lead + a + CRLF, line, CRLF);
  }

  lemma SmuggledFields(r: Request, t: Writer, a: string, k: string, v: string, rest: string)
    requires GoodRequest(r) && '\n' !in r.host && '\n' !in a && '\n' !in v && GoodKey(k) && r.agent == TwoLines(a, k, v)
    ensures FieldsAt(LeadLines(r) + (LinesOf(RestFields(r, t)) + CRLF) + rest)
         == Fields([Field(HOST, ReadValue(r.host))] + ([Field(USER_AGENT, ReadValue(a))] + [Field(k, ReadValue(v))]
                   + CleanHeader(RestFields(r, t))), rest)
  {
    var h := RestFields(r, t);
    var w := LinesOf(h) + CRLF + rest;
    HostKeys();
    RestFieldsGood(r, t);
    CanonicalIdentity(h);
    FieldsRoundTrip(h, rest);
    StartsLines(h, rest);
    TwoLinesPrinted(USER_AGENT, a, k, v);
    TwoRawFields(USER_AGENT, a, k, v, w);
    Assoc(RawLine(USER_AGENT, a), RawLine(k, v), w);
    StartsRaw(USER_AGENT, a, RawLine(k, v) + w);
    RawFieldStep(HOST, r.host, RawLine(USER_AGENT, r.agent) + w);
    Assoc(RawLine(HOST, r.host), RawLine(USER_AGENT, r.agent), w);
    Assoc(LeadLines(r), LinesOf(h) + CRLF, rest);
  }

  lemma SmuggledKeys(host: string, a: string, k: string, v: string, c: Header)
    requires k == TRANSFER_ENCODING
    ensures var h := [Field(HOST, host)] + ([Field(USER_AGENT, a)] + [Field(k, v)] + c);
            && Has(h, k) && Get(h, k) == v && Get(h, "Trailer") == Get(c, "Trailer")
  {
    var u, g := [Field(USER_AGENT, a)], [Field(k, v)];
    KeysDiffer();
    forall j | j == k || j == "Trailer" ensures Get([Field(HOST, host)] + (u + g + c), j) == Get(g + c, j) {
      GetOne(Field(HOST, host), j);
      GetOne(Field(USER_AGENT, a), j);
      Assoc(u, g, c);
      GetAppend(u, g + c, j);
      GetAppend([Field(HOST, host)], u + g + c, j);
    }
    GetOne(Field(k, v), k);
    GetOne(Field(k, v), "Trailer");
    GetAppend(g, c, k);
    GetAppend(g, c, "Trailer");
    GetAppend(u + g, c, k);
    GetAppend(u, g, k);
    GetAppend([Field(HOST, host)], u + g + c, k);
  }

  lemma ReceivedFrom(w: string, line: string, fields: string, h: Header, rest: string)
    requires TextLineAt(w) == TextLine(line, fields) && FieldsAt(fields) == Fields(h, rest)
    requires ParseRequestLine(line).FirstLine? && ReadTransfer(IncomingRequest(h)).Transfer?
    ensures ReceiveAt(w).Received? && ReceiveAt(w).framing == ReadTransfer(IncomingRequest(h)).framing
  {
  }

  lemma SmuggledHeader(host: string, a: string, v: string, c: Header)
    requires v == "chunked" && Get(c, "Trailer") == ""
    ensures var h := [Field(HOST, host)] + ([Field(USER_AGENT, a)] + [Field(TRANSFER_ENCODING, v)] + c);
            ReadTransfer(IncomingRequest(h)).Transfer? && ReadTransfer(IncomingRequest(h)).framing == ByChunks
  {
    SmuggledKeys(host, a, TRANSFER_ENCODING, v, c);
    ReadsChunked(IncomingRequest([Field(HOST, host)] + ([Field(USER_AGENT, a)] + [Field(TRANSFER_ENCODING, v)] + c)));
  }

  lemma HasNewline(a: string, k: string, v: string)
    ensures '\n' in TwoLines(a, k, v)
  {
    assert TwoLines(a, k, v)[|a| + 1] == '\n';
  }

  lemma SmuggledReception(r: Request, t: Writer, a: string, k: string, v: string, h: Header, rest: string)
    requires GoodRequest(r) && LineParts(MethodSent(r), r.uri) && '\n' !in r.host && '\n' !in a
    requires GoodKey(k) && '\n' !in v && ReadValue(v) == v && r.agent == TwoLines(a, k, v)
    requires h == [Field(HOST, ReadValue(r.host))] + ([Field(USER_AGENT, ReadValue(a))] + [Field(k, v)] + CleanHeader(RestFields(r, t)))
    requires ReadTransfer(IncomingRequest(h)).Transfer?
    ensures ReceiveAt(WrittenHead(r, t) + rest).Received?
    ensures ReceiveAt(WrittenHead(r, t) + rest).framing == ReadTransfer(IncomingRequest(h)).framing
  {
    FirstLineEnds(r, t, rest);
    RequestLineRoundTrip(MethodSent(r), r.uri);
    SmuggledFields(r, t, a, k, v, rest);
    ReceivedFrom(WrittenHead(r, t) + rest, RequestLine(MethodSent(r), r.uri),
                 LeadLines(r) + (LinesOf(RestFields(r, t)) + CRLF) + rest, h, rest);
  }

  lemma ChunkedIsPlain(v: string)
    requires v == "chunked"
    ensures '\n' !in v && ReadValue(v) == v
  {
    LowerWordIsClean(v);
    CleanIsTrimmed(v);
  }

  /** A User-Agent that goes on to a line "Transfer-Encoding: chunked" makes the
      reader take the body for chunks, whatever was sent; such a request is never
      recovered. */
  lemma SmuggledFraming(r: Request, t: Writer, a: string, v: string, rest: string)
    requires GoodRequest(r) && LineParts(MethodSent(r), r.uri) && '\n' !in r.host && '\n' !in a
    requires v == "chunked" && r.agent == TwoLines(a, TRANSFER_ENCODING, v)
    ensures ReceiveAt(WrittenHead(r, t) + rest).Received?
    ensures ReceiveAt(WrittenHead(r, t) + rest).framing == ByChunks && !Printable(r)
  {
    var k, c := TRANSFER_ENCODING, CleanHeader(RestFields(r, t));
    var h := [Field(HOST, ReadValue(r.host))] + ([Field(USER_AGENT, ReadValue(a))] + [Field(k, v)] + c);
    ChunkedIsPlain(v);
    EncodingKey();
    RestTrailer(r, t);
    SmuggledHeader(ReadValue(r.host), ReadValue(a), v, c);
    SmuggledReception(r, t, a, k, v, h, rest);
    HasNewline(a, k, v);
  }

  lemma RestTrailer(r: Request, t: Writer)
    ensures Get(CleanHeader(RestFields(r, t)), "Trailer") == ""
  {
    WriterKeys(t);
    FramingKeys(r, t, "Trailer");
    GetClean(RestFields(r, t), "Trailer");
    GetAbsent(CleanHeader(RestFields(r, t)), "Trailer");
  }

  /** newTransferWriter keeps the body: the byte it probed is put back. */
  lemma WriterState(r: Request)
    requires NewTransferWriter(r).Some? && BodyWire(NewTransferWriter(r).value, []).Some?
    requires -INT64_LIMIT <= r.contentLength < INT64_LIMIT && |BodyText(r.body)| < INT64_LIMIT
    ensures var t := NewTransferWriter(r).value;
            && BodyText(t.body) == BodyText(r.body)
            && -1 <= t.contentLength < INT64_LIMIT
            && (IsChunked(t.te) ==> t.contentLength == -1 && t.body.Some?)
            && (!IsChunked(t.te) && t.contentLength != -1 ==> t.contentLength == |BodyText(r.body)|)
            && (Delimited(r) <==> IsChunked(t.te) || t.contentLength != -1)
            && t.meth == r.meth
  {
    if r.body.Some? && r.body.value != "" {
      assert r.body.value[..1] + r.body.value[1..] == r.body.value;
    }
  }

  // ---------------------------------------------------------------------
  // Many requests on one connection
  // ---------------------------------------------------------------------

  /** A request whose write succeeded, and how its body was cut on the way. */
  datatype Sent = Sent(r: Request, pieces: seq<string>)

  predicate SentOk(s: Sent)
  {
    && GoodRequest(s.r) && NewTransferWriter(s.r).Some?
    && BodyWire(NewTransferWriter(s.r).value, s.pieces).Some?
    && Concat(s.pieces) == BodyText(s.r.body)
    && Delimited(s.r) && Printable(s.r)
  }

  function OneOnWire(s: Sent): (w: string)
    requires SentOk(s)
  {
    var t := NewTransferWriter(s.r).value;
    WrittenHead(s.r, t) + BodyWire(t, s.pieces).value
  }

  function OnWire(msgs: seq<Sent>): (w: string)
    requires forall i :: 0 <= i < |msgs| ==> SentOk(msgs[i])
  {
    if msgs == [] then "" else OneOnWire(msgs[0]) + OnWire(msgs[1..])
  }

  /** What the receiving side must find: a head and the body after it. */
  datatype Message = Message(head: RequestHead, body: string)

  function MessageOf(s: Sent): Message
    requires SentOk(s)
  {
    Message(SentHead(s.r, NewTransferWriter(s.r).value), BodyText(s.r.body))
  }

  function MessagesOf(msgs: seq<Sent>): (m: seq<Message>)
    requires forall i :: 0 <= i < |msgs| ==> SentOk(msgs[i])
    ensures |m| == |msgs|
  {
    if msgs == [] then [] else [MessageOf(msgs[0])] + MessagesOf(msgs[1..])
  }

  /** Reading message after message from `w` gives exactly these and stops at
      `after`. */
  predicate ReadsAs(w: string, expected: seq<Message>, after: string)
  {
    ReadsBy(Receiver(), w, expected, after)
  }

  function Receiver(): (f: string -> Received)
  {
    w => ReceiveAt(w)
  }

  predicate ReadsBy(f: string -> Received, w: string, expected: seq<Message>, after: string)
    decreases |expected|
  {
    if expected == [] then w == after
    else
      var got := f(w);
      && got.Received? && got.head == expected[0].head
      && got.body.data == expected[0].body && got.body.status == Eof
      && ReadsBy(f, got.body.rest, expected[1..], after)
  }

  /** Any list of delimited requests laid back to back is recovered body by
      body, each read ending exactly where the next request begins. */
  lemma {:induction false} RequestsRoundTrip(msgs: seq<Sent>, after: string)
    requires forall i :: 0 <= i < |msgs| ==> SentOk(msgs[i])
    ensures ReadsAs(OnWire(msgs) + after, MessagesOf(msgs), after)
  {
    if msgs == [] {
      assert "" + after == after;
    } else {
      var s := msgs[0];
      var w := OnWire(msgs[1..]) + after;
      RequestsRoundTrip(msgs[1..], after);
      Assoc(OneOnWire(s), OnWire(msgs[1..]), after);
      OneRecovered(s, w);
      assert MessagesOf(msgs)[1..] == MessagesOf(msgs[1..]);
    }
  }

  lemma OneRecovered(s: Sent, after: string)
    requires SentOk(s)
    ensures var got := ReceiveAt(OneOnWire(s) + after);
            && got.Received? && got.head == MessageOf(s).head
            && got.body == Decoded(MessageOf(s).body, Eof, after)
  {
    RequestRoundTrip(s.r, s.pieces, after);
  }

  /** ReadRequest, then any reads the handler cares to make, then body.Close. */
  method Receive(r: BufReader, plan: seq<nat>) returns (ok: bool, head: RequestHead, part: string)
    requires Positive(plan)
    modifies r
    ensures ok <==> ReceiveAt(old(r.rest)).Received?
    ensures ok ==> var got := ReceiveAt(old(r.rest));
                   && head == got.head && part <= got.body.data
                   && (got.body.status == Eof ==> r.rest == got.body.rest)
  {
    ok, head, part := false, RequestHead("", "", []), "";
    var h := HeadAt(r.rest);
    if h.HeadError? {
      return;
    }
    var l := ParseRequestLine(h.head.start);
    if l.BadLine? {
      return;
    }
    head := RequestHead(l.meth, l.uri, h.head.header);
    var t := ReadTransfer(IncomingRequest(head.header));
    if t.TransferError? {
      return;
    }
    r.rest := h.rest;
    var body := new Body(r, t, false);
    var e;
    part, e := body.ReadAndClose(plan);
    ok := true;
  }

  method ReceiveNext(r: BufReader, ghost expected: seq<Message>, ghost after: string, plan: seq<nat>)
    returns (head: RequestHead, part: string)
    requires ReadsAs(r.rest, expected, after) && expected != [] && Positive(plan)
    modifies r
    ensures head == expected[0].head && part <= expected[0].body
    ensures ReadsAs(r.rest, expected[1..], after)
  {
    var ok;
    ok, head, part := Receive(r, plan);
  }

  /** Heads as expected, and a prefix of every body. */
  predicate Delivered(heads: seq<RequestHead>, parts: seq<string>, expected: seq<Message>)
  {
    && |heads| == |parts| == |expected|
    && forall i :: 0 <= i < |expected| ==> heads[i] == expected[i].head && parts[i] <= expected[i].body
  }

  lemma DeliveredOne(heads: seq<RequestHead>, parts: seq<string>, done: seq<Message>, m: Message, part: string)
    requires Delivered(heads, parts, done) && part <= m.body
    ensures Delivered(heads + [m.head], parts + [part], done + [m])
  {
  }

  /** A connection carrying these messages is served request after request, each
      handler reading as much or as little of its body as it likes. */
  method ReceiveAll(r: BufReader, ghost expected: seq<Message>, ghost after: string, plans: seq<seq<nat>>)
    returns (heads: seq<RequestHead>, parts: seq<string>)
    requires ReadsAs(r.rest, expected, after) && |plans| == |expected|
    requires forall i :: 0 <= i < |plans| ==> Positive(plans[i])
    modifies r
    ensures Delivered(heads, parts, expected) && r.rest == after
  {
    heads, parts := [], [];
    ghost var done, left := [], expected;
    for k := 0 to |plans|
      invariant |left| == |plans| - k && done + left == expected
      invariant ReadsAs(r.rest, left, after)
      invariant Delivered(heads, parts, done)
    {
      var head, part := ReceiveNext(r, left, after, plans[k]);
      OneMore(heads, parts, done, left, head, part);
      heads, parts, done, left := heads + [head], parts + [part], done + [left[0]], left[1..];
    }
    LeftNone(done, left);
  }

  lemma OneMore(heads: seq<RequestHead>, parts: seq<string>, done: seq<Message>, left: seq<Message>, head: RequestHead, part: string)
    requires Delivered(heads, parts, done) && left != [] && head == left[0].head && part <= left[0].body
    ensures Delivered(heads + [head], parts + [part], done + [left[0]])
    ensures done + [left[0]] + left[1..] == done + left
  {
    DeliveredOne(heads, parts, done, left[0], part);
    MoveOne(done, left);
  }

  lemma LeftNone(done: seq<Message>, left: seq<Message>)
    requires left == []
    ensures done + left == done
  {
  }

  lemma MoveOne<T>(a: seq<T>, b: seq<T>)
    requires b != []
    ensures a + [b[0]] + b[1..] == a + b
  {
  }
}
