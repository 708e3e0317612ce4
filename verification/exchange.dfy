/** A reply and its reader: every complete reply is read back, and replies on
    one connection follow each other without a gap. */
module Exchange {
  import opened Text
  import opened Numerals
  import opened Chunked
  import opened Head
  import opened Transfer
  import opened Responses
  import opened Server
  import Requests

  // ---------------------------------------------------------------------
  // The bytes of a reply
  // ---------------------------------------------------------------------

  lemma BytesAppend(e: Env, a: seq<Token>, b: seq<Token>)
    ensures Bytes(e, a + b) == Bytes(e, a) + Bytes(e, b)
  {
    FlatAppend(Render(e), a, b);
  }

  lemma BytesOne(e: Env, t: Token)
    ensures Bytes(e, [t]) == TokenBytes(e, t)
  {
    FlatOne(Render(e), t);
  }

  lemma {:induction false} BytesFields(e: Env, h: Header)
    ensures Bytes(e, FieldTokens(h)) == LinesOf(h)
  {
    if h != [] {
      BytesFields(e, h[1..]);
      assert FieldTokens(h)[1..] == FieldTokens(h[1..]);
    }
  }

  lemma BytesPiece(e: Env, chunking: bool, p: string)
    requires p != ""
    ensures Bytes(e, PieceTokens(chunking, p)) == if chunking then ChunkOf(p) else p
  {
    if chunking {
      assert PieceTokens(chunking, p) == [Size(|p|)] + [Data(p)] + [EndOfChunk];
      BytesAppend(e, [Size(|p|)], [Data(p)]);
      BytesAppend(e, [Size(|p|)] + [Data(p)], [EndOfChunk]);
      BytesOne(e, Size(|p|));
      BytesOne(e, EndOfChunk);
    }
    BytesOne(e, Data(p));
  }

  function BodyBytes(chunking: bool, pieces: seq<string>): (w: string)
  {
    if chunking then ChunksOf(pieces) else Concat(pieces)
  }

  lemma {:induction false} BytesBody(e: Env, chunking: bool, pieces: seq<string>)
    requires NonEmpty(pieces)
    ensures Bytes(e, BodyTokens(chunking, pieces)) == BodyBytes(chunking, pieces)
  {
    if pieces != [] {
      var init, p := pieces[..|pieces| - 1], pieces[|pieces| - 1];
      BytesBody(e, chunking, init);
      BytesAppend(e, BodyTokens(chunking, init), PieceTokens(chunking, p));
      BytesPiece(e, chunking, p);
      BodyBytesStep(chunking, pieces, init, p);
    }
  }

  lemma BodyBytesStep(chunking: bool, pieces: seq<string>, init: seq<string>, p: string)
    requires pieces == init + [p]
    ensures BodyBytes(chunking, pieces) == BodyBytes(chunking, init) + if chunking then ChunkOf(p) else p
  {
    ConcatOne(init, p);
    ChunksOfAppend(init, p);
  }

  function Ending(chunking: bool): (w: string)
  {
    if chunking then "0\r\n" + CRLF else ""
  }

  lemma BytesEnding(e: Env, chunking: bool)
    ensures Bytes(e, if chunking then [LastChunk, EndOfTrailer] else []) == Ending(chunking)
  {
    if chunking {
      assert [LastChunk, EndOfTrailer] == [LastChunk] + [EndOfTrailer];
      BytesAppend(e, [LastChunk], [EndOfTrailer]);
      BytesOne(e, LastChunk);
      BytesOne(e, EndOfTrailer);
    }
  }

  function ReplyHead(e: Env, http11: bool, status: int, sent: Header): MessageHead
  {
    MessageHead(StatusLineOf(http11, status, StatusText(e, status)), sent)
  }

  lemma BytesHead(e: Env, http11: bool, status: int, sent: Header)
    ensures Bytes(e, [Start(http11, status)] + FieldTokens(sent) + [EndOfHead]) == HeadOf(ReplyHead(e, http11, status, sent))
  {
    BytesAppend(e, [Start(http11, status)], FieldTokens(sent));
    BytesAppend(e, [Start(http11, status)] + FieldTokens(sent), [EndOfHead]);
    BytesOne(e, Start(http11, status));
    BytesFields(e, sent);
    BytesOne(e, EndOfHead);
  }

  lemma BytesReply(e: Env, http11: bool, status: int, sent: Header, chunking: bool, pieces: seq<string>)
    requires NonEmpty(pieces)
    ensures Bytes(e, ReplyTokens(http11, status, sent, chunking, pieces))
            == HeadOf(ReplyHead(e, http11, status, sent)) + (BodyBytes(chunking, pieces) + Ending(chunking))
  {
    var h := [Start(http11, status)] + FieldTokens(sent) + [EndOfHead];
    var b := BodyTokens(chunking, pieces);
    var z := if chunking then [LastChunk, EndOfTrailer] else [];
    BytesAppend(e, h, b);
    BytesAppend(e, h + b, z);
    BytesHead(e, http11, status, sent);
    BytesBody(e, chunking, pieces);
    BytesEnding(e, chunking);
    Assoc(HeadOf(ReplyHead(e, http11, status, sent)), BodyBytes(chunking, pieces), Ending(chunking));
  }

  // ---------------------------------------------------------------------
  // The reader's framing is the writer's
  // ---------------------------------------------------------------------

  /** A complete reply, as `Response.Finished` leaves it; `kind` is the type the
      sniffer gives. */
  datatype Reply = Reply(req: Req, env: Env, status: int, header: Header, sent: Header,
                         kind: string, chunking: bool, declared: bool, length: int, pieces: seq<string>)

  predicate NoBody(y: Reply)
  {
    y.req.meth == "HEAD" || y.status == STATUS_NOT_MODIFIED
  }

  predicate Complete(y: Reply)
  {
    && GoodEnv(y.env) && IsStatus(y.status)
    && HeaderAgrees(y.req, y.status, y.header, y.chunking, y.declared, y.length)
    && Sniffed(y.header, y.sent, y.kind)
    && NonEmpty(y.pieces) && SliceSized(y.pieces)
    && (NoBody(y) ==> Concat(y.pieces) == "")
    && (y.declared && y.length >= 0 ==> |Concat(y.pieces)| <= y.length)
  }

  function Http11(y: Reply): bool
  {
    ProtoAtLeast(y.req, 1, 1)
  }

  function ReplyBytes(y: Reply): (w: string)
  {
    Bytes(y.env, ReplyTokens(Http11(y), y.status, y.sent, y.chunking, y.pieces))
  }

  lemma SentAgrees(y: Reply)
    requires Complete(y)
    ensures HeaderAgrees(y.req, y.status, y.sent, y.chunking, y.declared, y.length)
    ensures Get(y.sent, "Trailer") == Get(y.header, "Trailer")
  {
    if y.sent != y.header {
      var f := y.sent[|y.header|];
      assert y.sent == y.header + [f];
      SniffedHeader(y.req, y.status, y.header, f, y.chunking, y.declared, y.length);
    }
  }

  /** A parsable number is printed and trimmed unchanged. */
  lemma NumberIsClean(s: string)
    requires ParseInt(s).Number?
    ensures s != "" && IsClean(s)
  {
    var digits := if s[0] == '-' || s[0] == '+' then s[1..] else s;
    DigitsOnly(digits, 0);
    assert forall i :: 0 <= i < |s| ==> NumberChar(s[i]) by {
      forall i | 0 <= i < |s| ensures NumberChar(s[i]) {
        if |digits| < |s| && i > 0 {
          assert s[i] == digits[i - 1];
        }
      }
    }
    assert NumberChar(s[0]) && NumberChar(s[|s| - 1]);
  }

  predicate NumberChar(c: char)
  {
    c == '-' || c == '+' || DigitValue(c) < 10
  }

  lemma {:induction false} DigitsOnly(s: string, acc: nat)
    requires ParseFrom(s, Ten, acc).Number?
    ensures forall i :: 0 <= i < |s| ==> NumberChar(s[i])
    decreases |s|
  {
    if s != "" {
      DigitsOnly(s[1..], Shift(acc, Ten, DigitValue(s[0])));
      assert forall i :: 1 <= i < |s| ==> s[i] == s[1..][i - 1];
    }
  }

  /** The Trailer header names no key that has no business there. */
  predicate TrailerSound(y: Reply)
  {
    TrailerOk(Clean(Get(y.header, "Trailer")))
  }

  /** A 304 on which the handler left an empty Transfer-Encoding. */
  predicate HollowCoding(y: Reply)
  {
    y.status == STATUS_NOT_MODIFIED && Has(y.sent, TRANSFER_ENCODING)
  }

  function ReaderFraming(y: Reply): (t: Transfer)
  {
    FramingFor(ToUpper(y.req.meth), Http11(y), y.status, y.sent)
  }

  /** A reply whose type is the one ReadResponse does not support. */
  predicate Multipart(y: Reply)
  {
    IsByteranges(Clean(Get(y.sent, CONTENT_TYPE)))
  }

  /** Sniffing adds no transfer coding. */
  lemma CodingSent(y: Reply)
    requires Complete(y)
    ensures Has(y.sent, TRANSFER_ENCODING) <==> Has(y.header, TRANSFER_ENCODING)
  {
    if y.sent != y.header {
      var f := y.sent[|y.header|];
      assert y.sent == y.header + [f];
      TypeIsNotCoding();
      AppendOther(y.header, f, TRANSFER_ENCODING);
    }
  }

  lemma TypeIsNotCoding()
    ensures CONTENT_TYPE != TRANSFER_ENCODING
  {
    TypeKey();
    Requests.KeysDiffer();
  }

  /** The type on the wire is the handler's or the sniffer's. */
  lemma TypeSent(y: Reply)
    requires Complete(y) && !IsByteranges(Clean(Get(y.header, CONTENT_TYPE))) && !IsByteranges(Clean(y.kind))
    ensures !Multipart(y)
  {
    if y.sent != y.header {
      var f := Field(CONTENT_TYPE, y.kind);
      assert y.sent == y.header + [f];
      GetAppend(y.header, [f], CONTENT_TYPE);
      GetOne(f, CONTENT_TYPE);
    }
  }

  lemma ChunkedKeys(y: Reply)
    requires Complete(y) && TrailerSound(y) && !NoBody(y) && y.chunking
    ensures var c := CleanHeader(y.sent);
            Has(c, TRANSFER_ENCODING) && Get(c, TRANSFER_ENCODING) == "chunked" && TrailerAnnounced(c)
  {
    SentAgrees(y);
    GetClean(y.sent, "Trailer");
    ChunkedValue(y.sent);
  }

  lemma ChunkedIsClean(v: string)
    requires v == "chunked"
    ensures IsClean(v)
  {
    assert LowerWord(v);
  }

  lemma ChunkedValue(h: Header)
    requires Has(h, TRANSFER_ENCODING) && Get(h, TRANSFER_ENCODING) == "chunked"
    ensures Has(CleanHeader(h), TRANSFER_ENCODING) && Get(CleanHeader(h), TRANSFER_ENCODING) == "chunked"
  {
    ChunkedIsClean(Get(h, TRANSFER_ENCODING));
    CleanGet(h, TRANSFER_ENCODING);
  }

  lemma ChunkedFraming(y: Reply)
    requires Complete(y) && TrailerSound(y) && !AsksHead(y.req.meth) && !NoBody(y) && y.chunking
    ensures ReaderFraming(y).Transfer? && ReaderFraming(y).framing == ByChunks
  {
    ChunkedKeys(y);
    ReadsChunked(Incoming(true, y.status, ToUpper(y.req.meth), 1, if Http11(y) then 1 else 0, CleanHeader(y.sent)));
  }

  lemma DeclaredFraming(y: Reply)
    requires Complete(y) && TrailerSound(y) && !AsksHead(y.req.meth) && !NoBody(y) && !y.chunking && y.declared && BodyAllowedForStatus(y.status)
    ensures if y.length < 0 then ReaderFraming(y) == TransferError
            else ReaderFraming(y).Transfer? && ReaderFraming(y).framing == BySize(y.length)
  {
    SentAgrees(y);
    GetClean(y.sent, TRANSFER_ENCODING);
    GetClean(y.sent, CONTENT_LENGTH);
    GetClean(y.sent, "Trailer");
    var v := Get(y.sent, CONTENT_LENGTH);
    NumberIsClean(v);
    CleanIdentity(v);
    ReadsLength(Incoming(true, y.status, ToUpper(y.req.meth), 1, if Http11(y) then 1 else 0, CleanHeader(y.sent)), v);
  }

  lemma UndeclaredFraming(y: Reply)
    requires Complete(y) && TrailerSound(y) && !AsksHead(y.req.meth) && !NoBody(y) && !y.chunking && !y.declared
    requires BodyAllowedForStatus(y.status) && !Multipart(y)
    ensures ReaderFraming(y).Transfer? && ReaderFraming(y).framing == ToEof
  {
    SentAgrees(y);
    GetClean(y.sent, "Trailer");
    ReadsToEof(ToUpper(y.req.meth), Http11(y), y.status, y.sent);
  }

  lemma EmptyFraming(y: Reply)
    requires Complete(y) && TrailerSound(y) && (HollowCoding(y) ==> AsksHead(y.req.meth))
    requires AsksHead(y.req.meth) || NoBody(y) || (!y.chunking && !BodyAllowedForStatus(y.status))
    ensures ReaderFraming(y).Transfer? && ReaderFraming(y).framing == BySize(0)
  {
    var meth := ToUpper(y.req.meth);
    SentAgrees(y);
    GetClean(y.sent, "Trailer");
    if y.req.meth == "HEAD" {
      HeadAsksHead(y.req.meth);
    }
    if AsksHead(y.req.meth) || NoBody(y) {
      ReadsNoBody(meth, Http11(y), y.status, y.sent);
    } else {
      ReadsNoBodyStatus(meth, Http11(y), y.status, y.sent);
    }
  }

  /** A forbidden trailer key is refused whatever else the head says. */
  lemma TrailerRefused(y: Reply)
    requires Complete(y) && !TrailerSound(y)
    ensures ReaderFraming(y) == TransferError
  {
    SentAgrees(y);
    GetClean(y.sent, "Trailer");
  }

  /** And so is an empty Transfer-Encoding, unless the reader expects no body. */
  lemma HollowRefused(y: Reply)
    requires Complete(y) && HollowCoding(y) && !AsksHead(y.req.meth)
    ensures ReaderFraming(y) == TransferError
  {
    var c, none := CleanHeader(y.sent), "";
    SentAgrees(y);
    if y.req.meth == "HEAD" {
      HeadAsksHead(y.req.meth);
    }
    GetClean(y.sent, TRANSFER_ENCODING);
    CleanIdentity(none);
    TrimSpaceIdentity(none);
    assert Get(c, TRANSFER_ENCODING) == none && Split(none, ',') == [none];
    assert TakeEncodings([none]) == BadEncoding by {
      NoCoding(none);
    }
  }

  lemma NoCoding(e: string)
    requires e == ""
    ensures TakeEncodings([e]) == BadEncoding
  {
    TrimSpaceIdentity(e);
    assert |ToLower(TrimSpace(e))| == 0 && |"identity"| == 8 && |"chunked"| == 7;
  }

  // ---------------------------------------------------------------------
  // A reply is read back
  // ---------------------------------------------------------------------

  /** What the reader gets from a reply followed by `after`. */
  lemma ReplyReception(y: Reply, after: string)
    requires Complete(y)
    ensures var t := ReaderFraming(y);
            ReceiveAt(y.req.meth, ReplyBytes(y) + after)
            == if t.TransferError? then Rejected
               else Received(y.status, CleanHeader(y.sent),
                             BodyAt(t.framing, BodyBytes(y.chunking, y.pieces) + Ending(y.chunking) + after))
  {
    SentAgrees(y);
    var head := HeadOf(ReplyHead(y.env, Http11(y), y.status, y.sent));
    var body := BodyBytes(y.chunking, y.pieces) + Ending(y.chunking);
    BytesReply(y.env, Http11(y), y.status, y.sent, y.chunking, y.pieces);
    Assoc(head, body, after);
    StatusTextClean(y.env, y.status);
    Reception(y.req.meth, Http11(y), y.status, StatusText(y.env, y.status), y.sent, body + after);
  }

  lemma StatusTextClean(e: Env, status: int)
    requires GoodEnv(e) && IsStatus(status)
    ensures '\n' !in StatusText(e, status) && '\r' !in StatusText(e, status)
  {
    IntHasNoSpace(status);
    assert '\n' !in "status code " && '\r' !in "status code ";
  }

  lemma ChunkedBody(pieces: seq<string>, after: string)
    requires SliceSized(pieces)
    ensures BodyAt(ByChunks, BodyBytes(true, pieces) + Ending(true) + after) == Decoded(Concat(pieces), Eof, after)
  {
    var w := ChunksOf(pieces);
    Assoc(w, "0\r\n", CRLF);
    Assoc(w + "0\r\n", CRLF, after);
    DecodeUndoesWrites(pieces, CRLF + after);
    assert (CRLF + after)[..2] == CRLF && (CRLF + after)[2..] == after;
    assert Concat(pieces) + "" == Concat(pieces);
  }

  lemma PlainBytes(pieces: seq<string>, after: string)
    ensures BodyBytes(false, pieces) + Ending(false) + after == Concat(pieces) + after
  {
    assert Concat(pieces) + "" == Concat(pieces);
  }

  /** The reader can tell where the body ends without the connection closing. */
  predicate Delimited(y: Reply)
  {
    NoBody(y) || y.chunking || (y.declared && y.length == |Concat(y.pieces)|)
  }

  /** Statuses 1xx and 204 hide a body that is not chunked. A method that only
      the reader takes for HEAD hides everything after the head. A forbidden
      trailer key, and an empty Transfer-Encoding left on a 304, hide the reply. */
  predicate Visible(y: Reply)
  {
    && (Concat(y.pieces) == "" || y.chunking || BodyAllowedForStatus(y.status))
    && (AsksHead(y.req.meth) ==> Concat(y.pieces) == "" && !y.chunking)
    && TrailerSound(y)
    && (HollowCoding(y) ==> AsksHead(y.req.meth))
  }

  lemma Refused(y: Reply, after: string)
    requires Complete(y) && (!TrailerSound(y) || (HollowCoding(y) && !AsksHead(y.req.meth)))
    ensures ReceiveAt(y.req.meth, ReplyBytes(y) + after).Rejected?
  {
    ReplyReception(y, after);
    if TrailerSound(y) {
      HollowRefused(y);
    } else {
      TrailerRefused(y);
    }
  }

  function ReadBack(y: Reply, body: string, after: string): (r: Received)
  {
    Received(y.status, CleanHeader(y.sent), Decoded(body, Eof, after))
  }

  lemma ChunkedReply(y: Reply, after: string)
    requires Complete(y) && TrailerSound(y) && !AsksHead(y.req.meth) && !NoBody(y) && y.chunking
    ensures ReceiveAt(y.req.meth, ReplyBytes(y) + after) == ReadBack(y, Concat(y.pieces), after)
  {
    ReplyReception(y, after);
    ChunkedFraming(y);
    ChunkedBody(y.pieces, after);
  }

  /** What the server sent after the head. */
  function AfterHead(y: Reply): (w: string)
  {
    BodyBytes(y.chunking, y.pieces) + Ending(y.chunking)
  }

  /** Where the reader expects no body, all that follows the head stays unread. */
  lemma EmptyReply(y: Reply, after: string)
    requires Complete(y) && TrailerSound(y) && (HollowCoding(y) ==> AsksHead(y.req.meth))
    requires AsksHead(y.req.meth) || NoBody(y) || (!y.chunking && !BodyAllowedForStatus(y.status))
    ensures ReceiveAt(y.req.meth, ReplyBytes(y) + after) == ReadBack(y, "", AfterHead(y) + after)
  {
    ReplyReception(y, after);
    EmptyFraming(y);
    NothingTaken(AfterHead(y) + after);
  }

  lemma NothingTaken(w: string)
    ensures BodyAt(BySize(0), w) == Decoded("", Eof, w)
  {
    assert w[..0] == "" && w[0..] == w;
  }

  lemma AfterHeadEmpty(y: Reply, after: string)
    ensures AfterHead(y) + after == after <==> !y.chunking && Concat(y.pieces) == ""
  {
    assert |Ending(true)| == 5 && |Ending(false)| == 0;
    if !y.chunking {
      PlainBytes(y.pieces, after);
    }
    assert "" + after == after;
  }

  lemma DeclaredReply(y: Reply, after: string)
    requires Complete(y) && TrailerSound(y) && !AsksHead(y.req.meth) && !NoBody(y) && !y.chunking && y.declared && BodyAllowedForStatus(y.status)
    ensures y.length < 0 ==> ReceiveAt(y.req.meth, ReplyBytes(y) + after).Rejected?
    ensures y.length >= 0 ==>
              && ReceiveAt(y.req.meth, ReplyBytes(y) + after).Received?
              && (y.length == |Concat(y.pieces)| || after == "" ==>
                    ReceiveAt(y.req.meth, ReplyBytes(y) + after) == ReadBack(y, Concat(y.pieces), after))
  {
    ReplyReception(y, after);
    DeclaredFraming(y);
    PlainBytes(y.pieces, after);
    Requests.SizedExact(Concat(y.pieces), after, |Concat(y.pieces)|);
    assert after == "" ==> Concat(y.pieces) + after == Concat(y.pieces);
  }

  lemma UndeclaredReply(y: Reply, after: string)
    requires Complete(y) && TrailerSound(y) && !AsksHead(y.req.meth) && !NoBody(y) && !y.chunking && !y.declared
    requires BodyAllowedForStatus(y.status) && !Multipart(y)
    ensures ReceiveAt(y.req.meth, ReplyBytes(y) + after) == ReadBack(y, Concat(y.pieces) + after, "")
  {
    ReplyReception(y, after);
    UndeclaredFraming(y);
    PlainBytes(y.pieces, after);
  }

  /** HEAD and 304 replies are never chunked. */
  lemma NoBodyNoChunks(y: Reply)
    requires Complete(y) && NoBody(y)
    ensures !y.chunking && Concat(y.pieces) == ""
  {
  }

  /** A delimited reply followed by anything is read back exactly, the reader
      ending at the first byte after it, if and only if its body is visible. */
  lemma ReplyRoundTrip(y: Reply, after: string)
    requires Complete(y) && Delimited(y)
    ensures ReceiveAt(y.req.meth, ReplyBytes(y) + after) == ReadBack(y, Concat(y.pieces), after) <==> Visible(y)
  {
    AfterHeadEmpty(y, after);
    if !TrailerSound(y) || (HollowCoding(y) && !AsksHead(y.req.meth)) {
      Refused(y, after);
    } else if NoBody(y) {
      NoBodyNoChunks(y);
      EmptyReply(y, after);
    } else if AsksHead(y.req.meth) {
      EmptyReply(y, after);
    } else if y.chunking {
      ChunkedReply(y, after);
    } else if BodyAllowedForStatus(y.status) {
      DeclaredReply(y, after);
    } else {
      EmptyReply(y, after);
    }
  }

  /** A negative Content-Length makes the reply unreadable, and so does a
      forbidden trailer key. */
  lemma NegativeLengthRejected(y: Reply, after: string)
    requires Complete(y) && !NoBody(y) && !y.chunking && y.declared && BodyAllowedForStatus(y.status)
    ensures ReceiveAt(y.req.meth, ReplyBytes(y) + after).Rejected? <==>
            (y.length < 0 && !AsksHead(y.req.meth)) || !TrailerSound(y)
  {
    if !TrailerSound(y) {
      Refused(y, after);
    } else if AsksHead(y.req.meth) {
      EmptyReply(y, after);
    } else {
      DeclaredReply(y, after);
    }
  }

  /** The last reply of a connection may be short of its announced length, or
      announce none; what was accepted is still all that its reader gets. */
  lemma LastReplyRoundTrip(y: Reply)
    requires Complete(y) && Visible(y)
    requires Delimited(y) || (y.declared && y.length >= 0) || (!y.declared && !Multipart(y))
    ensures ReceiveAt(y.req.meth, ReplyBytes(y)) == ReadBack(y, Concat(y.pieces), "")
  {
    assert ReplyBytes(y) + "" == ReplyBytes(y);
    if Delimited(y) {
      ReplyRoundTrip(y, "");
    } else {
      UndelimitedLast(y);
    }
  }

  lemma UndelimitedLast(y: Reply)
    requires Complete(y) && Visible(y) && !Delimited(y)
    requires (y.declared && y.length >= 0) || (!y.declared && !Multipart(y))
    ensures ReceiveAt(y.req.meth, ReplyBytes(y) + "") == ReadBack(y, Concat(y.pieces), "")
  {
    AfterHeadEmpty(y, "");
    if AsksHead(y.req.meth) || !BodyAllowedForStatus(y.status) {
      EmptyReply(y, "");
    } else if y.declared {
      DeclaredReply(y, "");
    } else {
      UndeclaredReply(y, "");
      assert Concat(y.pieces) + "" == Concat(y.pieces);
    }
  }
}
