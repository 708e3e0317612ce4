/** Replies the server sends, keeping the connection, that its reader does not
    get as they were meant. */
module Misread {
  import opened Text
  import opened Numerals
  import opened Chunked
  import opened Head
  import opened Transfer
  import opened Responses
  import opened Server
  import opened Exchange
  import opened Connection
  import Requests

  /** A request that gives no reason to close, for a body that may be written. */
  predicate Plain(r: Req, h: Header, code: int, data: string)
  {
    && ProtoAtLeast(r, 1, 1) && r.contentLength == 0 && r.meth != "HEAD" && IsStatus(code) && code != STATUS_NOT_MODIFIED
    && GoodKeys(h) && Get(h, CONNECTION) != "close"
    && 0 < |data| < INT64_LIMIT
    && (LengthStands(h) ==> LengthOf(h) == -1 || LengthOf(h) == |data|)
  }

  /** WriteHeader, one Write, and the end of the request. */
  method ServeWrite(env: Env, r: Req, h: Header, code: int, data: string)
    returns (out: seq<Token>, kept: bool, ghost y: Reply)
    requires GoodEnv(env) && Plain(r, h, code, data)
    ensures kept && Complete(y) && y.req == r && y.status == code && Concat(y.pieces) == data
    ensures y.env == env && Bytes(env, out) == ReplyBytes(y)
    ensures (y.declared <==> LengthStands(h)) && (y.chunking <==> !LengthStands(h))
    ensures y.declared ==> y.length == LengthOf(h)
    ensures Get(y.header, "Trailer") == Get(h, "Trailer")
  {
    var w := new Response(r, env, h);
    w.WriteHeader(code);
    var n, err := w.Write(data);
    w.FinishRequest();
    out, kept := w.out, !w.closeAfterReply;
    y := ReplyOf(w);
    assert "" + data == data;
    Requests.PiecesSized(y.pieces);
  }

  /** A declared length of -1: the code takes it for none, keeps the connection,
      and no reader accepts the reply. */
  method NegativeLengthKept(env: Env, r: Req, h: Header, code: int, data: string) returns (out: seq<Token>, kept: bool)
    requires GoodEnv(env) && Plain(r, h, code, data) && LengthStands(h) && LengthOf(h) == -1
    requires BodyAllowedForStatus(code) && !AsksHead(r.meth)
    ensures kept && forall after :: ReceiveAt(r.meth, Bytes(env, out) + after).Rejected?
  {
    ghost var y;
    out, kept, y := ServeWrite(env, r, h, code, data);
    forall after ensures ReceiveAt(r.meth, Bytes(env, out) + after).Rejected? {
      NegativeLengthRejected(y, after);
    }
  }

  /** A status that allows no body, with a declared length and a write: the
      reader takes the body for the next reply. */
  method HiddenBodyKept(env: Env, r: Req, h: Header, code: int, data: string) returns (out: seq<Token>, kept: bool)
    requires GoodEnv(env) && Plain(r, h, code, data) && LengthStands(h) && !BodyAllowedForStatus(code)
    requires TrailerOk(Clean(Get(h, "Trailer")))
    ensures kept
    ensures forall after :: ReceiveAt(r.meth, Bytes(env, out) + after).Received?
    ensures forall after :: ReceiveAt(r.meth, Bytes(env, out) + after).body == Decoded("", Eof, data + after)
  {
    ghost var y;
    out, kept, y := ServeWrite(env, r, h, code, data);
    forall after
      ensures ReceiveAt(r.meth, Bytes(env, out) + after).Received?
      ensures ReceiveAt(r.meth, Bytes(env, out) + after).body == Decoded("", Eof, data + after)
    {
      EmptyReply(y, after);
      PlainBytes(y.pieces, after);
    }
  }

  /** A method such as "head", which only the reader takes for HEAD: the whole
      body is taken for the next reply. */
  method LowerCaseHeadKept(env: Env, r: Req, h: Header, code: int, data: string) returns (out: seq<Token>, kept: bool)
    requires GoodEnv(env) && Plain(r, h, code, data) && AsksHead(r.meth) && !LengthStands(h)
    requires TrailerOk(Clean(Get(h, "Trailer")))
    ensures kept
    ensures forall after :: ReceiveAt(r.meth, Bytes(env, out) + after).Received?
    ensures forall after :: var got := ReceiveAt(r.meth, Bytes(env, out) + after).body;
                            got.data == "" && |got.rest| > |after| + |data|
  {
    ghost var y;
    out, kept, y := ServeWrite(env, r, h, code, data);
    forall after
      ensures ReceiveAt(r.meth, Bytes(env, out) + after).Received?
      ensures var got := ReceiveAt(r.meth, Bytes(env, out) + after).body; got.data == "" && |got.rest| > |after| + |data|
    {
      EmptyReply(y, after);
      ChunksHold(y.pieces);
    }
  }

  /** A trailer key that has no business in a trailer: the head is printed, the
      body framed, the connection kept, and the reply refused. */
  method BadTrailerKept(env: Env, r: Req, h: Header, code: int, data: string) returns (out: seq<Token>, kept: bool)
    requires GoodEnv(env) && Plain(r, h, code, data) && !TrailerOk(Clean(Get(h, "Trailer")))
    ensures kept && forall after :: ReceiveAt(r.meth, Bytes(env, out) + after).Rejected?
  {
    ghost var y;
    out, kept, y := ServeWrite(env, r, h, code, data);
    forall after ensures ReceiveAt(r.meth, Bytes(env, out) + after).Rejected? {
      Refused(y, after);
    }
  }

  /** An empty Transfer-Encoding stays on a 304, and the reader refuses it. */
  method HollowCodingKept(env: Env, r: Req, h: Header) returns (out: seq<Token>, kept: bool)
    requires GoodEnv(env) && GoodKeys(h) && Hollow(h) && !AsksHead(r.meth)
    requires ProtoAtLeast(r, 1, 1) && r.contentLength == 0 && Get(h, CONNECTION) != "close"
    ensures kept && forall after :: ReceiveAt(r.meth, Bytes(env, out) + after).Rejected?
  {
    var w := new Response(r, env, h);
    w.WriteHeader(STATUS_NOT_MODIFIED);
    w.FinishRequest();
    out, kept := w.out, !w.closeAfterReply;
    ghost var y := ReplyOf(w);
    Requests.PiecesSized(y.pieces);
    CodingSent(y);
    forall after ensures ReceiveAt(r.meth, Bytes(env, out) + after).Rejected? {
      Refused(y, after);
    }
  }

  /** Headers as the last two need them. */
  lemma ForbiddenTrailer(h: Header, v: string)
    requires v == "trailer" && h == [Field("Trailer", v)]
    ensures GoodKeys(h) && !TrailerOk(Clean(Get(h, "Trailer")))
  {
    Requests.CapitalisedIsGood("Trailer");
    GetOne(h[0], "Trailer");
    LowerWordIsClean(v);
    CleanIdentity(v);
    LowerWordStays(v);
    assert Split(v, ',') == [v];
    assert BadTrailerKey(v);
  }

  lemma EmptyCoding(h: Header)
    requires h == [Field(TRANSFER_ENCODING, "")]
    ensures GoodKeys(h) && Hollow(h)
  {
    Requests.EncodingKey();
    GetOne(h[0], TRANSFER_ENCODING);
  }

  lemma {:induction false} ChunksHold(pieces: seq<string>)
    ensures |ChunksOf(pieces)| >= |Concat(pieces)|
  {
    if pieces != [] {
      ChunksOfFirst(pieces);
      ChunksHold(pieces[1..]);
    }
  }

  /** A header as NegativeLengthKept needs it. */
  lemma MinusOneHeader(h: Header, v: string)
    requires v == Requests.FormatInt(-1) && h == [Field(CONTENT_LENGTH, v)]
    ensures GoodKeys(h) && LengthStands(h) && LengthOf(h) == -1
  {
    Requests.LengthParses(-1);
    Requests.LengthKey();
    Requests.KeysDiffer();
    GetOne(h[0], CONTENT_LENGTH);
    GetOne(h[0], TRANSFER_ENCODING);
  }
}
