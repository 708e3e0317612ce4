/** The server's `response`: a handler's calls of WriteHeader, Write and Flush
    become one response on the connection. */
module Server {
  import opened Text
  import opened Numerals
  import opened Chunked
  import opened Head
  import opened Transfer
  import opened Responses
  import Requests

  const SNIFF_LEN := 512
  const MAX_POST_HANDLER_READ_BYTES := 262144
  const STATUS_OK := 200

  /** What the response code looks at in the request; `bodyLeft` is how much of
      its body the handler has not read yet. */
  datatype Req = Req(meth: string, major: int, minor: int, connection: string, contentLength: int, bodyLeft: nat)

  predicate ProtoAtLeast(r: Req, major: int, minor: int)
  {
    r.major > major || (r.major == major && r.minor >= minor)
  }

  predicate WantsHttp10KeepAlive(r: Req)
  {
    r.major == 1 && r.minor == 0 && Contains(ToLower(r.connection), "keep-alive")
  }

  predicate IsTokenBoundary(c: char)
  {
    c == ' ' || c == ',' || c == '\t'
  }

  /** hasToken from position `sp` on: the token, in any case, between boundaries. */
  predicate HasTokenFrom(v: string, token: string, sp: nat)
    decreases |v| - sp
  {
    sp + |token| <= |v| &&
    ((&& (sp > 0 ==> IsTokenBoundary(v[sp - 1]))
      && (sp + |token| < |v| ==> IsTokenBoundary(v[sp + |token|]))
      && ToLower(v[sp..sp + |token|]) == token)
     || (sp < |v| && HasTokenFrom(v, token, sp + 1)))
  }

  predicate HasToken(v: string, token: string)
  {
    |token| <= |v| && token != "" && (v == token || HasTokenFrom(v, token, 0))
  }

  // ---------------------------------------------------------------------
  // Header edits that leave the framing keys alone
  // ---------------------------------------------------------------------

  predicate FramingKey(k: string)
  {
    k == TRANSFER_ENCODING || k == CONTENT_LENGTH || k == "Trailer" || k == CONTENT_TYPE
  }

  /** `g` says the same as `h` about how the body is delimited, and its type. */
  predicate SameFraming(h: Header, g: Header)
  {
    && (GoodKeys(h) ==> GoodKeys(g))
    && (Has(h, TRANSFER_ENCODING) <==> Has(g, TRANSFER_ENCODING))
    && Get(h, TRANSFER_ENCODING) == Get(g, TRANSFER_ENCODING)
    && Get(h, CONTENT_LENGTH) == Get(g, CONTENT_LENGTH)
    && Get(h, "Trailer") == Get(g, "Trailer")
    && Get(h, CONTENT_TYPE) == Get(g, CONTENT_TYPE)
  }

  lemma SetKeepsGoodKeys(h: Header, key: string, v: string)
    requires GoodKeys(h) && GoodKey(key)
    ensures GoodKeys(Set(h, key, v))
  {
    var g := Set(h, key, v);
    forall i | 0 <= i < |g| ensures GoodKey(g[i].key) {
      assert g[i] in h || g[i] == Field(key, v);
    }
  }

  lemma SetKeepsFraming(h: Header, key: string, v: string)
    requires GoodKey(key) && !FramingKey(key)
    ensures SameFraming(h, Set(h, key, v))
  {
    GetSet(h, key, v, TRANSFER_ENCODING);
    GetSet(h, key, v, CONTENT_LENGTH);
    GetSet(h, key, v, "Trailer");
    GetSet(h, key, v, CONTENT_TYPE);
    if GoodKeys(h) {
      SetKeepsGoodKeys(h, key, v);
    }
  }

  lemma ConnectionKey()
    ensures GoodKey(CONNECTION) && !FramingKey(CONNECTION)
  {
    TypeKey();
    Requests.KeysDiffer();
    Requests.FixedKeysGood();
  }

  lemma DateKey()
    ensures GoodKey("Date") && !FramingKey("Date")
  {
    TypeKey();
    Requests.KeysDiffer();
    Requests.CapitalisedIsGood("Date");
    assert |"Date"| == 4;
  }

  lemma TypeKey()
    ensures |CONTENT_TYPE| == 12
  {
  }

  lemma ContentTypeKey()
    ensures GoodKey(CONTENT_TYPE)
  {
    Requests.CapitalisedIsGood(CONTENT_TYPE);
  }

  // ---------------------------------------------------------------------
  // The decisions of WriteHeader, step by step
  // ---------------------------------------------------------------------

  /** The explicit Content-Length, if the handler set a valid one. */
  datatype Declared = Declared(header: Header, has: bool, n: int)

  function DeclaredLength(h: Header): (d: Declared)
    ensures d.has ==> d.header == h && ParseInt(Get(h, CONTENT_LENGTH)) == Number(d.n)
  {
    var v := Get(h, CONTENT_LENGTH);
    if v == "" then Declared(h, false, 0)
    else
      var p := ParseInt(v);
      if p.Number? then Declared(h, true, p.n) else Declared(Del(h, CONTENT_LENGTH), false, 0)
  }

  /** The length a header announces, 0 when it announces none. */
  function LengthOf(h: Header): (n: int)
  {
    var p := ParseInt(Get(h, CONTENT_LENGTH));
    if p.Number? then p.n else 0
  }

  /** The header declares a valid length, and no transfer coding overrules it. */
  predicate LengthStands(h: Header)
  {
    ParseInt(Get(h, CONTENT_LENGTH)).Number? && (Get(h, TRANSFER_ENCODING) == "" || Get(h, TRANSFER_ENCODING) == "identity")
  }

  /** The request, its unread body or the handler's own header end the
      connection with this reply. */
  predicate Closes(r: Req, hasLength: bool, connection: string, left: nat)
  {
    || (!ProtoAtLeast(r, 1, 1) && !(WantsHttp10KeepAlive(r) && (r.meth == "HEAD" || hasLength)))
    || connection == "close"
    || (r.contentLength != 0 && left >= MAX_POST_HANDLER_READ_BYTES)
  }

  lemma DeclaredFacts(h: Header)
    ensures var d := DeclaredLength(h);
            && (d.has <==> ParseInt(Get(h, CONTENT_LENGTH)).Number?)
            && (GoodKeys(h) ==> GoodKeys(d.header))
            && Get(d.header, TRANSFER_ENCODING) == Get(h, TRANSFER_ENCODING)
            && (Has(d.header, TRANSFER_ENCODING) <==> Has(h, TRANSFER_ENCODING))
            && Get(d.header, "Trailer") == Get(h, "Trailer")
            && Get(d.header, CONNECTION) == Get(h, CONNECTION)
            && Get(d.header, CONTENT_TYPE) == Get(h, CONTENT_TYPE)
            && (!d.has ==> Get(d.header, CONTENT_LENGTH) == "")
            && (d.has ==> d.n == LengthOf(h))
  {
    Requests.KeysDiffer();
    GetDel(h, CONTENT_LENGTH, TRANSFER_ENCODING);
    GetDel(h, CONTENT_LENGTH, CONTENT_LENGTH);
    GetDel(h, CONTENT_LENGTH, "Trailer");
    GetDel(h, CONTENT_LENGTH, CONNECTION);
    TypeKey();
    GetDel(h, CONTENT_LENGTH, CONTENT_TYPE);
    if GoodKeys(h) {
      Requests.DelKeepsGoodKeys(h, CONTENT_LENGTH);
    }
  }

  lemma KeepAliveSet(h: Header)
    requires !Has(h, CONNECTION)
    ensures Get(h, CONNECTION) != "close" && Get(Set(h, CONNECTION, "keep-alive"), CONNECTION) != "close"
  {
    GetAbsent(h, CONNECTION);
    GetSet(h, CONNECTION, "keep-alive", CONNECTION);
    assert |"keep-alive"| == 10 && |"close"| == 5;
  }

  /** How the body will be delimited. */
  datatype Choice = Choice(header: Header, chunking: bool, contentLength: int, mustClose: bool)

  function ChooseFraming(r: Req, code: int, h: Header, has: bool, n: int): (c: Choice)
  {
    if r.meth == "HEAD" || code == STATUS_NOT_MODIFIED then Choice(h, false, -1, false)
    else if has then Choice(Del(h, TRANSFER_ENCODING), false, n, false)
    else if ProtoAtLeast(r, 1, 1) then
      Choice(Del(Set(h, TRANSFER_ENCODING, "chunked"), CONTENT_LENGTH), true, -1, false)
    else Choice(Del(h, TRANSFER_ENCODING), false, -1, true)
  }

  /** What the header of a response must say for its reader to agree. */
  predicate HeaderAgrees(r: Req, status: int, h: Header, chunking: bool, declared: bool, n: int)
  {
    && GoodKeys(h)
    && (if r.meth == "HEAD" then !chunking
        else if status == STATUS_NOT_MODIFIED then !chunking && Get(h, TRANSFER_ENCODING) == ""
        else if chunking then Has(h, TRANSFER_ENCODING) && Get(h, TRANSFER_ENCODING) == "chunked"
        else !Has(h, TRANSFER_ENCODING) &&
             if declared then ParseInt(Get(h, CONTENT_LENGTH)) == Number(n) else Get(h, CONTENT_LENGTH) == "")
  }

  lemma ChoiceAgrees(r: Req, code: int, h: Header, has: bool, n: int)
    requires GoodKeys(h)
    requires r.meth != "HEAD" && code != STATUS_NOT_MODIFIED ==>
               if has then ParseInt(Get(h, CONTENT_LENGTH)) == Number(n) else Get(h, CONTENT_LENGTH) == ""
    requires code == STATUS_NOT_MODIFIED ==> Get(h, TRANSFER_ENCODING) == ""
    ensures var c := ChooseFraming(r, code, h, has, n);
            && HeaderAgrees(r, code, c.header, c.chunking, has, n)
            && Get(c.header, "Trailer") == Get(h, "Trailer")
  {
    Requests.KeysDiffer();
    Requests.FixedKeysGood();
    var s := Set(h, TRANSFER_ENCODING, "chunked");
    SetKeepsGoodKeys(h, TRANSFER_ENCODING, "chunked");
    Requests.DelKeepsGoodKeys(h, TRANSFER_ENCODING);
    Requests.DelKeepsGoodKeys(s, CONTENT_LENGTH);
    GetDel(h, TRANSFER_ENCODING, TRANSFER_ENCODING);
    GetDel(h, TRANSFER_ENCODING, CONTENT_LENGTH);
    GetDel(h, TRANSFER_ENCODING, "Trailer");
    GetSet(h, TRANSFER_ENCODING, "chunked", TRANSFER_ENCODING);
    GetSet(h, TRANSFER_ENCODING, "chunked", "Trailer");
    GetDel(s, CONTENT_LENGTH, TRANSFER_ENCODING);
    GetDel(s, CONTENT_LENGTH, "Trailer");
  }

  lemma ChoiceKeepsType(r: Req, code: int, h: Header, has: bool, n: int)
    ensures Get(ChooseFraming(r, code, h, has, n).header, CONTENT_TYPE) == Get(h, CONTENT_TYPE)
  {
    TypeKey();
    Requests.KeysDiffer();
    var s := Set(h, TRANSFER_ENCODING, "chunked");
    GetDel(h, TRANSFER_ENCODING, CONTENT_TYPE);
    GetSet(h, TRANSFER_ENCODING, "chunked", CONTENT_TYPE);
    GetDel(s, CONTENT_LENGTH, CONTENT_TYPE);
  }

  // ---------------------------------------------------------------------
  // The response object
  // ---------------------------------------------------------------------

  datatype WriteError = Nil | BodyNotAllowed | ContentLengthExceeded

  /** Fixed surroundings: the clock, the status table and the sniffer. The
      types a sniffer returns have no newline and no space at their ends, so
      they print like any other header value. */
  datatype Env = Env(date: string, texts: map<int, string>, detect: string -> string)

  predicate GoodEnv(e: Env)
  {
    forall c :: c in e.texts ==> '\n' !in e.texts[c] && '\r' !in e.texts[c]
  }

  function StatusText(e: Env, code: int): (t: string)
  {
    if code in e.texts then e.texts[code] else "status code " + Requests.FormatInt(code)
  }

  /** A Transfer-Encoding that is there and says nothing. */
  predicate Hollow(h: Header)
  {
    Has(h, TRANSFER_ENCODING) && Get(h, TRANSFER_ENCODING) == ""
  }

  // ---------------------------------------------------------------------
  // What is written to the connection, write by write
  // ---------------------------------------------------------------------

  datatype Token =
    | Start(http11: bool, status: int)
    | FieldLine(field: Field)
    | EndOfHead
    | Size(n: nat)
    | Data(s: string)
    | EndOfChunk
    | LastChunk
    | EndOfTrailer

  function TokenBytes(e: Env, t: Token): (w: string)
  {
    match t
    case Start(http11, status) => StatusLineOf(http11, status, StatusText(e, status)) + CRLF
    case FieldLine(f) => LineOf(f)
    case EndOfHead => CRLF
    case Size(n) => Format(n, Sixteen) + CRLF
    case Data(s) => s
    case EndOfChunk => CRLF
    case LastChunk => "0\r\n"
    case EndOfTrailer => CRLF
  }

  function Render(e: Env): Token -> string
  {
    t => TokenBytes(e, t)
  }

  function Bytes(e: Env, ts: seq<Token>): (w: string)
  {
    Flat(Render(e), ts)
  }

  /** Header.Write. */
  function FieldTokens(h: Header): (ts: seq<Token>)
    ensures |ts| == |h|
  {
    if h == [] then [] else [FieldLine(h[0])] + FieldTokens(h[1..])
  }

  function PieceTokens(chunking: bool, p: string): (ts: seq<Token>)
  {
    if chunking then [Size(|p|), Data(p), EndOfChunk] else [Data(p)]
  }

  function BodyTokens(chunking: bool, pieces: seq<string>): (ts: seq<Token>)
  {
    if pieces == [] then []
    else BodyTokens(chunking, pieces[..|pieces| - 1]) + PieceTokens(chunking, pieces[|pieces| - 1])
  }

  /** 304 drops the headers that describe a body, where they are set. */
  function DropIfSet(h: Header, k: string): (r: Header)
  {
    if Get(h, k) != "" then Del(h, k) else h
  }

  function DropBodyHeaders(h: Header): (r: Header)
  {
    DropIfSet(DropIfSet(DropIfSet(h, CONTENT_TYPE), CONTENT_LENGTH), TRANSFER_ENCODING)
  }

  lemma DropOne(h: Header, k: string, j: string)
    ensures var r := DropIfSet(h, k);
            && (GoodKeys(h) ==> GoodKeys(r))
            && (k == j ==> Get(r, j) == "")
            && (k != j ==> Get(r, j) == Get(h, j) && (Has(r, j) <==> Has(h, j)))
            && (k == j && Get(h, j) != "" ==> !Has(r, j))
            && (!Has(h, j) ==> !Has(r, j))
  {
    GetDel(h, k, j);
    if GoodKeys(h) {
      Requests.DelKeepsGoodKeys(h, k);
    }
  }

  lemma DropFacts(h: Header)
    ensures var r := DropBodyHeaders(h);
            && (GoodKeys(h) ==> GoodKeys(r))
            && (Has(r, TRANSFER_ENCODING) <==> Hollow(h)) && Get(r, CONTENT_LENGTH) == "" && Get(r, TRANSFER_ENCODING) == ""
            && Get(r, "Trailer") == Get(h, "Trailer")
  {
    var h1 := DropIfSet(h, CONTENT_TYPE);
    var h2 := DropIfSet(h1, CONTENT_LENGTH);
    Requests.KeysDiffer();
    TypeKey();
    DropOne(h, CONTENT_TYPE, TRANSFER_ENCODING);
    DropOne(h, CONTENT_TYPE, "Trailer");
    DropOne(h1, CONTENT_LENGTH, TRANSFER_ENCODING);
    DropOne(h1, CONTENT_LENGTH, CONTENT_LENGTH);
    DropOne(h1, CONTENT_LENGTH, "Trailer");
    DropOne(h2, TRANSFER_ENCODING, TRANSFER_ENCODING);
    DropOne(h2, TRANSFER_ENCODING, CONTENT_LENGTH);
    DropOne(h2, TRANSFER_ENCODING, "Trailer");
  }

  /** How many bytes were offered, and what was accepted of them. */
  predicate Counts(noBody: bool, chunking: bool, declared: bool, length: int, written: int, accepted: string)
  {
    && written >= 0
    && (chunking || !declared ==> length == -1)
    && (chunking || noBody ==> !declared)
    && (noBody ==> accepted == "" && written == 0)
    && (length == -1 ==> written == |accepted|)
    && (length != -1 ==> (written == |accepted| && (written <= length || written == 0)) || written > length)
    && (declared && length >= 0 ==> |accepted| <= length)
  }

  predicate NonEmpty(pieces: seq<string>)
  {
    forall i :: 0 <= i < |pieces| ==> pieces[i] != ""
  }

  /** A head, and the accepted data as it was cut and encoded. */
  predicate Bodied(head: seq<Token>, chunking: bool, pieces: seq<string>, out: seq<Token>, accepted: string)
  {
    out == head + BodyTokens(chunking, pieces) && accepted == Concat(pieces) && NonEmpty(pieces)
  }

  class Response {
    const req: Req
    const env: Env
    var header: Header
    var out: seq<Token>        // what this response has put on the connection
    var body: string           // conn.body: held back for sniffing
    var status: int
    var wroteHeader: bool
    var chunking: bool
    var needSniff: bool
    var written: int
    var contentLength: int
    var closeAfterReply: bool
    var requestBodyLimitHit: bool
    var bodyLeft: nat          // unread bytes of the request body

    ghost var accepted: string      // the data of all writes that returned nil
    ghost var pieces: seq<string>   // how it was cut up on the connection
    ghost var sent: Header          // the header fields on the connection
    ghost var declared: bool        // a Content-Length was announced
    ghost const trailer: string     // the Trailer header the handler set
    ghost const announced: int      // the length the handler's header announces
    ghost const stands: bool        // and whether that is what delimits a body
    ghost const ctype: string       // the type the handler's header gives
    ghost const hollow: bool        // whether it holds an empty Transfer-Encoding

    ghost predicate NoBody()
      reads this`status
    {
      req.meth == "HEAD" || status == STATUS_NOT_MODIFIED
    }

    /** Before WriteHeader nothing has happened. */
    ghost predicate Fresh()
      reads this
    {
      && out == [] && body == "" && accepted == "" && pieces == []
      && written == 0 && contentLength == -1 && !chunking && !needSniff && !declared
    }

    /** The header describes the body that is being sent. */
    ghost predicate Framed()
      reads this`header, this`status, this`chunking, this`declared, this`contentLength, this`closeAfterReply
    {
      && HeaderAgrees(req, status, header, chunking, declared, contentLength)
      && Get(header, "Trailer") == trailer
      && (declared ==> contentLength == announced)
      && (!NoBody() && !chunking && !declared ==> closeAfterReply && Get(header, CONNECTION) != "keep-alive")
    }

    /** `written` counts every byte offered; a rejected write leaves it beyond
        the announced length for good. */
    ghost predicate Counted()
      reads this
    {
      Counts(NoBody(), chunking, declared, contentLength, written, accepted)
    }

    /** On the connection are a head and the accepted data, encoded; while
        sniffing, the head is still open and the data still held back. */
    ghost predicate OnWire()
      reads this
    {
      var head := [Start(ProtoAtLeast(req, 1, 1), status)] + FieldTokens(sent);
      && (NoBody() ==> !needSniff)
      && (if needSniff then sent == header && out == head && accepted == body && pieces == []
          else Sniffed(header, sent, env.detect(body)) && Bodied(head + [EndOfHead], chunking, pieces, out, accepted))
    }

    ghost predicate Valid()
      reads this
    {
      && |body| <= SNIFF_LEN && ProtoAtLeast(req, 1, 0)
      && (if !wroteHeader then Fresh() else Counted() && OnWire())
    }

    /** Before the head is sent the header is the handler's; afterwards it
        describes the body. */
    ghost predicate Ready()
      reads this`wroteHeader, this`header, this`status, this`chunking, this`declared, this`contentLength, this`closeAfterReply
    {
      if wroteHeader then Framed()
      else GoodKeys(header) && Get(header, "Trailer") == trailer && LengthOf(header) == announced
    }

    /** How a body is delimited was settled by the handler's header and the
        request, and its type, if the handler gave one, by the header. */
    ghost predicate Standing()
      reads this`wroteHeader, this`header, this`status, this`chunking, this`declared
    {
      if wroteHeader then
        && (declared <==> !NoBody() && stands) && (chunking <==> !NoBody() && !declared && ProtoAtLeast(req, 1, 1))
        && (!NoBody() ==> Get(header, CONTENT_TYPE) == ctype)
        && (status == STATUS_NOT_MODIFIED ==> (Has(header, TRANSFER_ENCODING) <==> hollow))
      else LengthStands(header) == stands && Get(header, CONTENT_TYPE) == ctype && Hollow(header) == hollow
    }

    constructor (req: Req, env: Env, header: Header)
      requires GoodKeys(header) && ProtoAtLeast(req, 1, 0)
      ensures Valid() && Ready() && !wroteHeader && !closeAfterReply && this.req == req && this.env == env
      ensures this.header == header && !requestBodyLimitHit && accepted == ""
      ensures trailer == Get(header, "Trailer") && announced == LengthOf(header)
      ensures Standing() && stands == LengthStands(header) && ctype == Get(header, CONTENT_TYPE) && hollow == Hollow(header)
      ensures written == 0 && bodyLeft == req.bodyLeft
    {
      this.req, this.env, this.header := req, env, header;
      out, body, status, written, contentLength := [], "", 0, 0, -1;
      wroteHeader, chunking, needSniff, closeAfterReply, requestBodyLimitHit := false, false, false, false, false;
      bodyLeft := req.bodyLeft;
      accepted, pieces, sent, declared := "", [], [], false;
      trailer, announced, stands := Get(header, "Trailer"), LengthOf(header), LengthStands(header);
      ctype, hollow := Get(header, CONTENT_TYPE), Hollow(header);
    }

    /** The keep-alive part of WriteHeader and the draining of the request body:
        it may touch the Connection header and decide to close. */
    method Negotiate(hasLength: bool)
      modifies this`header, this`closeAfterReply, this`requestBodyLimitHit, this`bodyLeft
      ensures SameFraming(old(header), header)
      ensures closeAfterReply <==>
                old(closeAfterReply) || Closes(req, hasLength, Get(old(header), CONNECTION), old(bodyLeft))
    {
      ConnectionKey();
      SetKeepsFraming(header, CONNECTION, "keep-alive");
      if WantsHttp10KeepAlive(req) && (req.meth == "HEAD" || hasLength) {
        if !Has(header, CONNECTION) {
          KeepAliveSet(header);
          header := Set(header, CONNECTION, "keep-alive");
        }
      } else if !ProtoAtLeast(req, 1, 1) {
        closeAfterReply := true;
      }
      if Get(header, CONNECTION) == "close" {
        closeAfterReply := true;
      }
      SetKeepsFraming(header, CONNECTION, "close");
      if req.contentLength != 0 && !closeAfterReply {
        var n := if bodyLeft < MAX_POST_HANDLER_READ_BYTES + 1 then bodyLeft else MAX_POST_HANDLER_READ_BYTES + 1;
        bodyLeft := bodyLeft - n;
        if n >= MAX_POST_HANDLER_READ_BYTES {
          closeAfterReply, requestBodyLimitHit := true, true;
          header := Set(header, CONNECTION, "close");
        } else {
          bodyLeft := 0;
        }
      }
    }

    /** 304 headers, content sniffing and the date. */
    method Describe(code: int)
      modifies this`header, this`needSniff
      ensures GoodKeys(old(header)) ==> GoodKeys(header)
      ensures Get(header, "Trailer") == Get(old(header), "Trailer")
      ensures code != STATUS_NOT_MODIFIED ==> SameFraming(old(header), header)
      ensures code == STATUS_NOT_MODIFIED ==>
                && (Has(header, TRANSFER_ENCODING) <==> Hollow(old(header)))
                && Get(header, CONTENT_LENGTH) == "" && Get(header, TRANSFER_ENCODING) == ""
      ensures needSniff <==> old(needSniff)
                             || (req.meth != "HEAD" && code != STATUS_NOT_MODIFIED && Get(old(header), CONTENT_TYPE) == "")
    {
      DropFacts(header);
      if code == STATUS_NOT_MODIFIED {
        header := DropBodyHeaders(header);
      } else if Get(header, CONTENT_TYPE) == "" && req.meth != "HEAD" {
        needSniff := true;
      }
      DateKey();
      SetKeepsFraming(header, "Date", env.date);
      if !Has(header, "Date") {
        header := Set(header, "Date", env.date);
      }
    }

    /** Content-Length, chunks or the end of the connection. */
    method Choose(code: int, hasLength: bool, n: int)
      requires GoodKeys(header) && contentLength == -1 && !chunking && !declared
      requires req.meth != "HEAD" && code != STATUS_NOT_MODIFIED ==>
                 if hasLength then ParseInt(Get(header, CONTENT_LENGTH)) == Number(n) else Get(header, CONTENT_LENGTH) == ""
      requires code == STATUS_NOT_MODIFIED ==> Get(header, TRANSFER_ENCODING) == ""
      modifies this`header, this`chunking, this`contentLength, this`closeAfterReply, this`declared
      ensures HeaderAgrees(req, code, header, chunking, declared, contentLength)
      ensures Get(header, "Trailer") == Get(old(header), "Trailer")
      ensures Get(header, CONTENT_TYPE) == Get(old(header), CONTENT_TYPE)
      ensures chunking ==> contentLength == -1 && !declared
      ensures req.meth == "HEAD" || code == STATUS_NOT_MODIFIED ==> contentLength == -1 && !declared
      ensures code == STATUS_NOT_MODIFIED ==> header == old(header)
      ensures declared ==> hasLength && contentLength == n
      ensures declared <==> hasLength && req.meth != "HEAD" && code != STATUS_NOT_MODIFIED
                            && (Get(old(header), TRANSFER_ENCODING) == "" || Get(old(header), TRANSFER_ENCODING) == "identity")
      ensures chunking <==> !declared && req.meth != "HEAD" && code != STATUS_NOT_MODIFIED && ProtoAtLeast(req, 1, 1)
      ensures !declared ==> contentLength == -1
      ensures closeAfterReply <==>
                old(closeAfterReply) || (!chunking && !declared && req.meth != "HEAD" && code != STATUS_NOT_MODIFIED)
    {
      var has := hasLength;
      var te := Get(header, TRANSFER_ENCODING);
      if has && te != "" && te != "identity" {
        LengthDropped(header);
        header, has := Del(header, CONTENT_LENGTH), false;
      }
      ChoiceAgrees(req, code, header, has, n);
      ChoiceKeepsType(req, code, header, has, n);
      var c := ChooseFraming(req, code, header, has, n);
      header, chunking, contentLength := c.header, c.chunking, c.contentLength;
      declared := has && req.meth != "HEAD" && code != STATUS_NOT_MODIFIED;
      if c.mustClose {
        closeAfterReply := true;
      }
    }

    /** A reply after which the connection closes says so. */
    method AnnounceClose()
      requires HeaderAgrees(req, status, header, chunking, declared, contentLength)
      requires Get(header, "Trailer") == trailer && (declared ==> contentLength == announced)
      requires !NoBody() && !chunking && !declared ==> closeAfterReply
      modifies this`header
      ensures Framed() && Get(header, CONTENT_TYPE) == Get(old(header), CONTENT_TYPE)
      ensures Has(header, TRANSFER_ENCODING) <==> Has(old(header), TRANSFER_ENCODING)
    {
      KeepAliveIsNotClose();
      if closeAfterReply && !HasToken(Get(header, CONNECTION), "close") {
        ConnectionKey();
        SetKeepsFraming(header, CONNECTION, "close");
        GetSet(header, CONNECTION, "close", CONNECTION);
        CloseHasToken();
        header := Set(header, CONNECTION, "close");
      }
    }

    /** The head, left open while the content type is still to be sniffed. */
    method EmitHead()
      requires out == []
      modifies this`out, this`sent
      ensures sent == header
      ensures var head := [Start(ProtoAtLeast(req, 1, 1), status)] + FieldTokens(sent);
              out == if needSniff then head else head + [EndOfHead]
    {
      sent := header;
      out := [Start(ProtoAtLeast(req, 1, 1), status)];
      out := out + FieldTokens(header);
      if !needSniff {
        out := out + [EndOfHead];
      }
    }

    /** All of WriteHeader up to the writing. */
    method Decide(code: int)
      requires GoodKeys(header) && contentLength == -1 && !chunking && !declared && !needSniff
      modifies this`header, this`closeAfterReply, this`requestBodyLimitHit, this`bodyLeft, this`needSniff,
               this`chunking, this`contentLength, this`declared
      ensures HeaderAgrees(req, code, header, chunking, declared, contentLength)
      ensures Get(header, "Trailer") == Get(old(header), "Trailer")
      ensures chunking ==> contentLength == -1 && !declared
      ensures req.meth == "HEAD" || code == STATUS_NOT_MODIFIED ==> contentLength == -1 && !declared && !needSniff
      ensures code != STATUS_NOT_MODIFIED ==> Get(header, CONTENT_TYPE) == Get(old(header), CONTENT_TYPE)
      ensures code == STATUS_NOT_MODIFIED ==> (Has(header, TRANSFER_ENCODING) <==> Hollow(old(header)))
      ensures declared ==> contentLength == LengthOf(old(header))
      ensures declared <==> req.meth != "HEAD" && code != STATUS_NOT_MODIFIED && LengthStands(old(header))
      ensures chunking <==> !declared && req.meth != "HEAD" && code != STATUS_NOT_MODIFIED && ProtoAtLeast(req, 1, 1)
      ensures !declared ==> contentLength == -1
      ensures closeAfterReply <==>
                || old(closeAfterReply)
                || Closes(req, ParseInt(Get(old(header), CONTENT_LENGTH)).Number?, Get(old(header), CONNECTION), old(bodyLeft))
                || (!chunking && !declared && req.meth != "HEAD" && code != STATUS_NOT_MODIFIED)
    {
      DeclaredFacts(header);
      var d := DeclaredLength(header);
      header := d.header;
      Negotiate(d.has);
      Describe(code);
      Choose(code, d.has, d.n);
    }

    /** WriteHeader. A body is delimited by its declared length if that stands,
        else by chunks if the client knows them, else by the end of the connection. */
    method WriteHeader(code: int)
      requires Valid() && Ready() && Standing()
      modifies this
      ensures Valid() && Ready() && Standing() && wroteHeader && accepted == old(accepted) && written == old(written)
      ensures !old(wroteHeader) ==>
                && status == code
                && (closeAfterReply <==>
                      || old(closeAfterReply)
                      || Closes(req, ParseInt(Get(old(header), CONTENT_LENGTH)).Number?, Get(old(header), CONNECTION), old(bodyLeft))
                      || (!NoBody() && !chunking && !declared))
      ensures old(wroteHeader) ==> status == old(status) && closeAfterReply == old(closeAfterReply) && header == old(header)
    {
      if wroteHeader {
        return;
      }
      SendHead(code);
    }

    method SendHead(code: int)
      requires Valid() && Ready() && !wroteHeader
      modifies this
      ensures Valid() && Ready() && wroteHeader && accepted == old(accepted) && written == old(written) && status == code
      ensures declared <==> !NoBody() && LengthStands(old(header))
      ensures chunking <==> !NoBody() && !declared && ProtoAtLeast(req, 1, 1)
      ensures !NoBody() ==> Get(header, CONTENT_TYPE) == Get(old(header), CONTENT_TYPE)
      ensures status == STATUS_NOT_MODIFIED ==> (Has(header, TRANSFER_ENCODING) <==> Hollow(old(header)))
      ensures closeAfterReply <==>
                || old(closeAfterReply)
                || Closes(req, ParseInt(Get(old(header), CONTENT_LENGTH)).Number?, Get(old(header), CONNECTION), old(bodyLeft))
                || (!NoBody() && !chunking && !declared)
    {
      PrepareHead(code);
      OpenReply();
    }

    /** Nothing is sent yet but the head. */
    method OpenReply()
      requires out == [] && body == "" && accepted == "" && pieces == [] && written == 0 && ProtoAtLeast(req, 1, 0)
      requires chunking || !declared ==> contentLength == -1
      requires chunking ==> !declared
      requires NoBody() ==> !declared && !needSniff
      modifies this`out, this`sent, this`wroteHeader
      ensures Valid() && wroteHeader
    {
      wroteHeader := true;
      EmitHead();
      BodiedNone(out, chunking);
    }

    method PrepareHead(code: int)
      requires GoodKeys(header) && contentLength == -1 && !chunking && !declared && !needSniff
      requires Get(header, "Trailer") == trailer && LengthOf(header) == announced
      modifies this`header, this`closeAfterReply, this`requestBodyLimitHit, this`bodyLeft, this`needSniff,
               this`chunking, this`contentLength, this`declared, this`status
      ensures Framed() && status == code
      ensures declared <==> !NoBody() && LengthStands(old(header))
      ensures chunking <==> !NoBody() && !declared && ProtoAtLeast(req, 1, 1)
      ensures !NoBody() ==> Get(header, CONTENT_TYPE) == Get(old(header), CONTENT_TYPE)
      ensures status == STATUS_NOT_MODIFIED ==> (Has(header, TRANSFER_ENCODING) <==> Hollow(old(header)))
      ensures closeAfterReply <==>
                || old(closeAfterReply)
                || Closes(req, ParseInt(Get(old(header), CONTENT_LENGTH)).Number?, Get(old(header), CONNECTION), old(bodyLeft))
                || (!NoBody() && !chunking && !declared)
      ensures chunking || !declared ==> contentLength == -1
      ensures chunking ==> !declared
      ensures NoBody() ==> !declared && !needSniff
    {
      status := code;
      Decide(code);
      AnnounceClose();
    }

    /** Writes one piece of body data, as a chunk if chunking. */
    method EmitPiece(p: string)
      requires p != ""
      modifies this`out, this`pieces
      ensures out == old(out) + PieceTokens(chunking, p) && pieces == old(pieces) + [p]
    {
      if chunking {
        out := out + [Size(|p|)];
      }
      out := out + [Data(p)];
      if chunking {
        out := out + [EndOfChunk];
      }
      pieces := pieces + [p];
    }

    /** Ends the head with the detected type. */
    method EndHead()
      requires out == [Start(ProtoAtLeast(req, 1, 1), status)] + FieldTokens(sent)
      modifies this`out, this`sent
      ensures out == [Start(ProtoAtLeast(req, 1, 1), status)] + FieldTokens(sent) + [EndOfHead]
      ensures sent == old(sent) + [Field(CONTENT_TYPE, env.detect(body))]
    {
      var f := Field(CONTENT_TYPE, env.detect(body));
      FieldTokensAppend(sent, f);
      ghost var head := [Start(ProtoAtLeast(req, 1, 1), status)];
      Assoc(head, FieldTokens(sent), [FieldLine(f)]);
      Assoc(out, [FieldLine(f)], [EndOfHead]);
      out := out + [FieldLine(f), EndOfHead];
      sent := sent + [f];
    }

    /** Ends the head with the detected type and releases the held data. */
    method Sniff()
      requires Valid() && wroteHeader
      modifies this`out, this`pieces, this`sent, this`needSniff
      ensures Valid() && !needSniff
    {
      if !needSniff {
        return;
      }
      needSniff := false;
      EndHead();
      BodiedNone(out, chunking);
      if |body| > 0 {
        Release();
      }
    }

    method Release()
      requires pieces == [] && body != ""
      modifies this`out, this`pieces
      ensures Bodied(old(out), chunking, pieces, out, body) && pieces == [body]
    {
      BodiedNone(out, chunking);
      BodiedMore(out, chunking, [], out, "", body);
      assert "" + body == body;
      EmitPiece(body);
    }

    /** Write. Accepted data joins the body; data beyond the announced length or
        for a bodyless reply is refused whole. */
    method Write(data: string) returns (n: nat, err: WriteError)
      requires Valid() && Ready() && Standing()
      modifies this
      ensures Valid() && Ready() && Standing() && wroteHeader
      ensures err.Nil? ==> accepted == old(accepted) + data && n == |data|
      ensures !err.Nil? ==> accepted == old(accepted) && n == 0
      ensures err.BodyNotAllowed? <==> data != "" && NoBody()
      ensures err.ContentLengthExceeded? <==>
                data != "" && !NoBody() && contentLength != -1 && old(written) + |data| > contentLength
      ensures written == old(written) + if err.BodyNotAllowed? then 0 else |data|
      ensures status == if old(wroteHeader) then old(status) else STATUS_OK
      ensures old(wroteHeader) ==> closeAfterReply == old(closeAfterReply) && header == old(header)
    {
      if !wroteHeader {
        WriteHeader(STATUS_OK);
      }
      n, err := Offer(data);
    }

    /** Write once the head is decided. */
    method Offer(data: string) returns (n: nat, err: WriteError)
      requires Valid() && wroteHeader
      modifies this`out, this`pieces, this`sent, this`needSniff, this`body, this`accepted, this`written
      ensures Valid()
      ensures err.Nil? ==> accepted == old(accepted) + data && n == |data|
      ensures !err.Nil? ==> accepted == old(accepted) && n == 0
      ensures err.BodyNotAllowed? <==> data != "" && NoBody()
      ensures err.ContentLengthExceeded? <==>
                data != "" && !NoBody() && contentLength != -1 && old(written) + |data| > contentLength
      ensures written == old(written) + if err.BodyNotAllowed? then 0 else |data|
    {
      if |data| == 0 {
        return 0, Nil;
      }
      if req.meth == "HEAD" || status == STATUS_NOT_MODIFIED {
        return 0, BodyNotAllowed;
      }
      if contentLength != -1 && written + |data| > contentLength {
        written := written + |data|;
        return 0, ContentLengthExceeded;
      }
      Accept(data);
      return |data|, Nil;
    }

    /** The part of Write that stores or sends accepted data: up to the sniff
        limit it is held back, and what does not fit releases it. */
    method Accept(data: string)
      requires Valid() && wroteHeader && data != "" && !NoBody()
      requires contentLength != -1 ==> written + |data| <= contentLength
      modifies this`out, this`pieces, this`sent, this`needSniff, this`body, this`accepted, this`written
      ensures Valid() && accepted == old(accepted) + data && written == old(written) + |data|
    {
      if needSniff {
        var m := if SNIFF_LEN - |body| > |data| then |data| else SNIFF_LEN - |body|;
        Hold(data[..m]);
        assert data == data[..m] + data[m..];
        if m == |data| {
          return;
        }
        Sniff();
        Assoc(old(accepted), data[..m], data[m..]);
        Send(data[m..]);
      } else {
        Send(data);
      }
    }

    method Hold(data: string)
      requires Valid() && wroteHeader && needSniff && |body| + |data| <= SNIFF_LEN && !NoBody()
      requires contentLength != -1 ==> written + |data| <= contentLength
      modifies this`body, this`accepted, this`written
      ensures Valid() && accepted == old(accepted) + data && written == old(written) + |data|
    {
      CountsMore(NoBody(), chunking, declared, contentLength, written, accepted, data);
      written := written + |data|;
      body := body + data;
      accepted := accepted + data;
    }

    method Send(data: string)
      requires Valid() && wroteHeader && !needSniff && data != "" && !NoBody()
      requires contentLength != -1 ==> written + |data| <= contentLength
      modifies this`out, this`pieces, this`accepted, this`written
      ensures Valid() && accepted == old(accepted) + data && written == old(written) + |data|
    {
      BodiedMore([Start(ProtoAtLeast(req, 1, 1), status)] + FieldTokens(sent) + [EndOfHead], chunking, pieces, out, accepted, data);
      CountsMore(NoBody(), chunking, declared, contentLength, written, accepted, data);
      written := written + |data|;
      EmitPiece(data);
      accepted := accepted + data;
    }

    method Flush()
      requires Valid() && Ready() && Standing()
      modifies this
      ensures Valid() && Ready() && Standing() && wroteHeader && !needSniff
      ensures accepted == old(accepted) && written == old(written)
      ensures status == if old(wroteHeader) then old(status) else STATUS_OK
    {
      if !wroteHeader {
        WriteHeader(STATUS_OK);
      }
      Sniff();
    }

    /** requestTooLarge, called when a MaxBytesReader runs into its limit. */
    method RequestTooLarge()
      requires Valid() && Ready() && Standing()
      modifies this`header, this`closeAfterReply, this`requestBodyLimitHit
      ensures Valid() && Ready() && Standing() && closeAfterReply && requestBodyLimitHit
      ensures header == if wroteHeader then old(header) else Set(old(header), CONNECTION, "close")
    {
      closeAfterReply, requestBodyLimitHit := true, true;
      if !wroteHeader {
        ConnectionKey();
        SetKeepsFraming(header, CONNECTION, "close");
        header := Set(header, CONNECTION, "close");
      }
    }

    /** All of the reply is on the connection: head, accepted data and, when
        chunking, its end. */
    ghost predicate Delivered()
      reads this
    {
      && out == ReplyTokens(ProtoAtLeast(req, 1, 1), status, sent, chunking, pieces)
      && HeaderAgrees(req, status, header, chunking, declared, contentLength)
      && Get(header, "Trailer") == trailer && (declared ==> contentLength == announced)
      && Sniffed(header, sent, env.detect(body)) && accepted == Concat(pieces)
      && NonEmpty(pieces)
      && (NoBody() ==> accepted == "")
      && (declared && contentLength >= 0 ==> |accepted| <= contentLength)
    }

    /** A complete reply. The connection is kept only if the reader can tell where
        the body ends. */
    ghost predicate Finished()
      reads this
    {
      && Delivered()
      && (!closeAfterReply ==>
            NoBody() || chunking || (declared && (contentLength == -1 || contentLength == |accepted|)))
    }

    /** The close decision of a head that only finishRequest sends. */
    ghost predicate ClosesLate(h: Header, left: nat)
      reads this`status, this`chunking, this`declared
    {
      || Closes(req, Get(h, CONTENT_LENGTH) == "" || ParseInt(Get(h, CONTENT_LENGTH)).Number?, Get(h, CONNECTION), left)
      || (!NoBody() && !chunking && !declared)
    }

    /** The close decision of the head that finishRequest finds or sends, and the
        one case in which it is taken back. */
    ghost predicate Closing(before: bool, wrote: bool, h: Header, count: int, left: nat)
      reads this`status, this`chunking, this`declared
    {
      (before && !PromisedOpen(h, count)) || (!wrote && ClosesLate(h, left))
    }

    /** finishRequest. The header edit it makes after the head is sent is lost
        with the response, so it is made on a copy. */
    method FinishRequest()
      requires Valid() && Ready() && Standing()
      modifies this
      ensures Finished() && accepted == old(accepted) && written == old(written)
      ensures closeAfterReply <==>
                || Closing(old(closeAfterReply), old(wroteHeader), old(header), old(written), old(bodyLeft))
                || (contentLength != -1 && contentLength != written)
      ensures !closeAfterReply ==> bodyLeft == 0
      ensures status == if old(wroteHeader) then old(status) else STATUS_OK
      ensures old(wroteHeader) ==>
                declared == old(declared) && chunking == old(chunking) && contentLength == old(contentLength)
      ensures NoBody() || declared || chunking || (!stands && !ProtoAtLeast(req, 1, 1))
      ensures !NoBody() ==> Get(header, CONTENT_TYPE) == ctype
      ensures status == STATUS_NOT_MODIFIED ==> (Has(header, TRANSFER_ENCODING) <==> hollow)
    {
      FinishHead();
      EndReply();
    }

    /** The part of finishRequest that sees to it that there is a head. */
    method FinishHead()
      requires Valid() && Ready() && Standing()
      modifies this
      ensures Valid() && Ready() && wroteHeader && accepted == old(accepted) && written == old(written)
      ensures status == if old(wroteHeader) then old(status) else STATUS_OK
      ensures old(wroteHeader) ==>
                declared == old(declared) && chunking == old(chunking) && contentLength == old(contentLength)
      ensures closeAfterReply <==> Closing(old(closeAfterReply), old(wroteHeader), old(header), old(written), old(bodyLeft))
      ensures NoBody() || declared || chunking || (!stands && !ProtoAtLeast(req, 1, 1))
      ensures !NoBody() ==> Get(header, CONTENT_TYPE) == ctype
      ensures status == STATUS_NOT_MODIFIED ==> (Has(header, TRANSFER_ENCODING) <==> hollow)
    {
      TakeBack();
      if !wroteHeader {
        LateHead();
      }
    }

    /** An HTTP/1.0 client asked to keep the connection, and was told it is kept. */
    ghost predicate PromisedOpen(h: Header, count: int)
    {
      WantsHttp10KeepAlive(req) && (count == 0 || Get(h, CONTENT_LENGTH) != "") && Get(h, CONNECTION) == "keep-alive"
    }

    method TakeBack()
      requires Valid() && Ready()
      modifies this`closeAfterReply
      ensures Valid() && Ready() && closeAfterReply == (old(closeAfterReply) && !PromisedOpen(header, written))
    {
      var h := FinalHeader(header, written);
      FinalFacts(header, written);
      if WantsHttp10KeepAlive(req) && Get(h, CONTENT_LENGTH) != "" && Get(h, CONNECTION) == "keep-alive" {
        closeAfterReply := false;
      }
    }

    method LateHead()
      requires Valid() && Ready() && Standing() && !wroteHeader
      modifies this
      ensures Valid() && Ready() && wroteHeader && accepted == old(accepted) && written == old(written) && status == STATUS_OK
      ensures closeAfterReply <==> old(closeAfterReply) || ClosesLate(old(header), old(bodyLeft))
      ensures NoBody() || declared || chunking || (!stands && !ProtoAtLeast(req, 1, 1))
      ensures !NoBody() ==> Get(header, CONTENT_TYPE) == ctype
      ensures status == STATUS_NOT_MODIFIED ==> (Has(header, TRANSFER_ENCODING) <==> hollow)
    {
      FinalFacts(header, written);
      header := FinalHeader(header, written);
      SendHead(STATUS_OK);
    }

    method EndReply()
      requires Valid() && Ready() && wroteHeader
      modifies this
      ensures Finished() && accepted == old(accepted) && status == old(status) && written == old(written)
      ensures declared == old(declared) && chunking == old(chunking) && header == old(header)
      ensures contentLength == old(contentLength)
      ensures closeAfterReply <==> old(closeAfterReply) || (contentLength != -1 && contentLength != written)
      ensures !closeAfterReply ==> bodyLeft == 0
    {
      Deliver();
      Settle();
    }

    method Deliver()
      requires Valid() && Ready() && wroteHeader
      modifies this`out, this`pieces, this`sent, this`needSniff
      ensures Delivered() && Counted() && Framed()
    {
      Sniff();
      EndBody();
    }

    /** A reply that is not as long as announced ends the connection. */
    method Settle()
      requires Counted() && Framed()
      modifies this`bodyLeft, this`closeAfterReply
      ensures !closeAfterReply ==>
                NoBody() || chunking || (declared && (contentLength == -1 || contentLength == |accepted|))
      ensures closeAfterReply <==> old(closeAfterReply) || (contentLength != -1 && contentLength != written)
      ensures !closeAfterReply ==> bodyLeft == 0
    {
      if !closeAfterReply {
        bodyLeft := 0;
      }
      if contentLength != -1 && contentLength != written {
        closeAfterReply := true;
      }
    }

    method EndBody()
      requires out == [Start(ProtoAtLeast(req, 1, 1), status)] + FieldTokens(sent) + [EndOfHead] + BodyTokens(chunking, pieces)
      modifies this`out
      ensures out == ReplyTokens(ProtoAtLeast(req, 1, 1), status, sent, chunking, pieces)
    {
      if chunking {
        out := out + [LastChunk, EndOfTrailer];
      } else {
        assert out + [] == out;
      }
    }
  }

  /** All the writes of a complete reply. */
  function ReplyTokens(http11: bool, status: int, sent: Header, chunking: bool, pieces: seq<string>): (ts: seq<Token>)
  {
    [Start(http11, status)] + FieldTokens(sent) + [EndOfHead] + BodyTokens(chunking, pieces)
    + if chunking then [LastChunk, EndOfTrailer] else []
  }

  /** A reply nothing was written to has length 0. */
  function FinalHeader(h: Header, written: int): (g: Header)
  {
    if written == 0 && Get(h, CONTENT_LENGTH) == "" then Set(h, CONTENT_LENGTH, "0") else h
  }

  lemma FinalFacts(h: Header, written: int)
    ensures var g := FinalHeader(h, written);
            && (GoodKeys(h) ==> GoodKeys(g)) && Hollow(g) == Hollow(h)
            && LengthOf(g) == LengthOf(h) && (LengthStands(h) ==> LengthStands(g))
            && Get(g, "Trailer") == Get(h, "Trailer") && Get(g, CONNECTION) == Get(h, CONNECTION)
            && Get(g, CONTENT_TYPE) == Get(h, CONTENT_TYPE)
            && (Get(g, CONTENT_LENGTH) != "" <==> written == 0 || Get(h, CONTENT_LENGTH) != "")
            && (written == 0 ==> (ParseInt(Get(g, CONTENT_LENGTH)).Number? <==>
                                    Get(h, CONTENT_LENGTH) == "" || ParseInt(Get(h, CONTENT_LENGTH)).Number?))
  {
    LengthZero(h);
    ZeroLength();
  }

  lemma ZeroLength()
    ensures ParseInt("0") == Number(0) && !ParseInt("").Number?
  {
    FormatParseInt(0);
    assert Format(0, Ten) == "0";
  }

  lemma LengthZero(h: Header)
    ensures var g := Set(h, CONTENT_LENGTH, "0");
            && (GoodKeys(h) ==> GoodKeys(g))
            && (Has(g, TRANSFER_ENCODING) <==> Has(h, TRANSFER_ENCODING))
            && Get(g, TRANSFER_ENCODING) == Get(h, TRANSFER_ENCODING)
            && Get(g, "Trailer") == Get(h, "Trailer")
            && Get(g, CONNECTION) == Get(h, CONNECTION)
            && Get(g, CONTENT_TYPE) == Get(h, CONTENT_TYPE)
            && Get(g, CONTENT_LENGTH) == "0"
            && (Get(h, CONTENT_LENGTH) == "" ==> LengthOf(g) == LengthOf(h))
  {
    GetSet(h, CONTENT_LENGTH, "0", CONTENT_LENGTH);
    ZeroLength();
    Requests.KeysDiffer();
    Requests.FixedKeysGood();
    GetSet(h, CONTENT_LENGTH, "0", TRANSFER_ENCODING);
    GetSet(h, CONTENT_LENGTH, "0", "Trailer");
    GetSet(h, CONTENT_LENGTH, "0", CONNECTION);
    TypeKey();
    GetSet(h, CONTENT_LENGTH, "0", CONTENT_TYPE);
    if GoodKeys(h) {
      SetKeepsGoodKeys(h, CONTENT_LENGTH, "0");
    }
  }

  lemma LengthDropped(h: Header)
    requires GoodKeys(h)
    ensures var g := Del(h, CONTENT_LENGTH);
            GoodKeys(g) && Get(g, CONTENT_LENGTH) == "" && Get(g, "Trailer") == Get(h, "Trailer")
            && Get(g, CONTENT_TYPE) == Get(h, CONTENT_TYPE)
            && (!Has(h, TRANSFER_ENCODING) ==> !Has(g, TRANSFER_ENCODING))
  {
    Requests.KeysDiffer();
    GetDel(h, CONTENT_LENGTH, CONTENT_LENGTH);
    GetDel(h, CONTENT_LENGTH, TRANSFER_ENCODING);
    GetDel(h, CONTENT_LENGTH, "Trailer");
    TypeKey();
    GetDel(h, CONTENT_LENGTH, CONTENT_TYPE);
    Requests.DelKeepsGoodKeys(h, CONTENT_LENGTH);
  }

  lemma CloseHasToken()
    ensures HasToken("close", "close") && "close" != "keep-alive"
  {
    assert |"close"| == 5 && |"keep-alive"| == 10;
  }

  lemma KeepAliveIsNotClose()
    ensures !HasToken("keep-alive", "close")
  {
    var v, t := "keep-alive", "close";
    assert |t| == 5 && |v| == 10;
    assert !HasTokenFrom(v, t, 6);
    assert !HasTokenFrom(v, t, 5) by { assert !IsTokenBoundary(v[4]); }
    assert !HasTokenFrom(v, t, 4) by { assert !IsTokenBoundary(v[3]); }
    assert !HasTokenFrom(v, t, 3) by { assert !IsTokenBoundary(v[2]); }
    assert !HasTokenFrom(v, t, 2) by { assert !IsTokenBoundary(v[1]); }
    assert !HasTokenFrom(v, t, 1) by { assert !IsTokenBoundary(v[0]); }
    assert !HasTokenFrom(v, t, 0) by { assert !IsTokenBoundary(v[5]); }
  }

  lemma {:induction false} FieldTokensAppend(h: Header, f: Field)
    ensures FieldTokens(h + [f]) == FieldTokens(h) + [FieldLine(f)]
  {
    if h == [] {
      assert h + [f] == [f];
    } else {
      FieldTokensAppend(h[1..], f);
      assert (h + [f])[1..] == h[1..] + [f];
    }
  }

  lemma BodyTokensAppend(chunking: bool, pieces: seq<string>, p: string)
    ensures BodyTokens(chunking, pieces + [p]) == BodyTokens(chunking, pieces) + PieceTokens(chunking, p)
  {
    assert (pieces + [p])[..|pieces|] == pieces;
  }

  /** A head and one piece more of the data. */
  lemma BodiedMore(head: seq<Token>, chunking: bool, pieces: seq<string>, out: seq<Token>, accepted: string, p: string)
    requires Bodied(head, chunking, pieces, out, accepted) && p != ""
    ensures Bodied(head, chunking, pieces + [p], out + PieceTokens(chunking, p), accepted + p)
  {
    BodyTokensAppend(chunking, pieces, p);
    ConcatOne(pieces, p);
    Assoc(head, BodyTokens(chunking, pieces), PieceTokens(chunking, p));
  }

  lemma BodiedNone(head: seq<Token>, chunking: bool)
    ensures Bodied(head, chunking, [], head, "")
  {
    assert head + [] == head;
  }

  lemma CountsMore(noBody: bool, chunking: bool, declared: bool, length: int, written: int, accepted: string, data: string)
    requires Counts(noBody, chunking, declared, length, written, accepted) && !noBody
    requires length != -1 ==> written + |data| <= length
    ensures Counts(noBody, chunking, declared, length, written + |data|, accepted + data)
  {
  }

  /** The sniffed Content-Type says nothing about framing. */
  lemma SniffedHeader(r: Req, status: int, h: Header, f: Field, chunking: bool, declared: bool, n: int)
    requires HeaderAgrees(r, status, h, chunking, declared, n) && f.key == CONTENT_TYPE
    ensures HeaderAgrees(r, status, h + [f], chunking, declared, n)
    ensures Get(h + [f], "Trailer") == Get(h, "Trailer")
  {
    ContentTypeKey();
    TypeKey();
    Requests.KeysDiffer();
    AppendOther(h, f, TRANSFER_ENCODING);
    AppendOther(h, f, CONTENT_LENGTH);
    AppendOther(h, f, "Trailer");
  }

  /** The fields on the wire: the header, perhaps with the sniffed type added. */
  predicate Sniffed(h: Header, sent: Header, kind: string)
  {
    sent == h || (|sent| == |h| + 1 && sent[..|h|] == h && sent[|h|] == Field(CONTENT_TYPE, kind))
  }

  lemma AppendOther(h: Header, f: Field, k: string)
    requires f.key != k
    ensures Get(h + [f], k) == Get(h, k) && (Has(h + [f], k) <==> Has(h, k))
  {
    GetAppend(h, [f], k);
    GetOne(f, k);
    if !Has(h, k) {
      GetAbsent(h, k);
    }
  }
}
