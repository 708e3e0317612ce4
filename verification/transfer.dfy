/** How a message body is delimited (section 4.4 of RFC 2616): the choice the
    reader makes from the headers, the body it then delivers, and the writer
    that must agree with it. */
module Transfer {
  import opened Text
  import opened Numerals
  import opened Chunked
  import opened Head

  const CONTENT_LENGTH := "Content-Length"
  const TRANSFER_ENCODING := "Transfer-Encoding"
  const CONNECTION := "Connection"
  const CONTENT_TYPE := "Content-Type"

  predicate IsChunked(te: seq<string>)
  {
    |te| > 0 && te[0] == "chunked"
  }

  predicate IsIdentity(te: seq<string>)
  {
    |te| == 1 && te[0] == "identity"
  }

  // ---------------------------------------------------------------------
  // readTransfer
  // ---------------------------------------------------------------------

  /** The message as readTransfer sees it, a request counting as the answer
      200 to a GET. */
  datatype Incoming = Incoming(isResponse: bool, status: int, meth: string, major: int, minor: int, header: Header)

  function IncomingRequest(h: Header): Incoming
  {
    Incoming(false, 200, "GET", 1, 1, h)
  }

  datatype Encodings = Encodings(te: seq<string>) | BadEncoding

  /** The loop of fixTransferEncoding over the listed codings. */
  function TakeEncodings(parts: seq<string>): (r: Encodings)
  {
    if parts == [] then Encodings([])
    else
      var e := ToLower(TrimSpace(parts[0]));
      if e == "identity" then Encodings([])
      else if e != "chunked" then BadEncoding
      else
        var tail := TakeEncodings(parts[1..]);
        if tail.BadEncoding? then BadEncoding else Encodings([e] + tail.te)
  }

  function FixTransferEncoding(meth: string, h: Header): (r: Encodings)
    ensures r.Encodings? ==> |r.te| <= 1
  {
    if !Has(h, TRANSFER_ENCODING) || meth == "HEAD" then Encodings([])
    else
      var r := TakeEncodings(Split(Get(h, TRANSFER_ENCODING), ','));
      if r.Encodings? && |r.te| > 1 then BadEncoding else r
  }

  datatype Length = Length(n: int) | BadLength

  /** The one content type that delimits itself, which is not supported. */
  predicate IsByteranges(v: string)
  {
    Contains(ToLower(v), "multipart/byteranges")
  }

  function FixLength(m: Incoming, te: seq<string>): (r: Length)
    ensures r.Length? ==> r.n >= -1
  {
    if m.meth == "HEAD" then Length(0)
    else if 100 <= m.status <= 199 || m.status == 204 || m.status == 304 then Length(0)
    else if IsChunked(te) then Length(-1)
    else
      var cl := TrimSpace(Get(m.header, CONTENT_LENGTH));
      if cl != "" then
        var p := ParseInt(cl);
        if p.Number? && p.n >= 0 then Length(p.n) else BadLength
      else if !m.isResponse && m.meth == "GET" then Length(0)
      else if IsByteranges(Get(m.header, CONTENT_TYPE)) then BadLength
      else Length(-1)
  }

  predicate BadTrailerKey(k: string)
  {
    var l := ToLower(TrimSpace(k));
    l == "transfer-encoding" || l == "trailer" || l == "content-length"
  }

  /** fixTrailer fails on a forbidden key and otherwise never records one. */
  predicate TrailerOk(v: string)
  {
    v == "" || forall k :: k in Split(v, ',') ==> !BadTrailerKey(k)
  }

  predicate TrailerAnnounced(h: Header)
  {
    TrailerOk(Get(h, "Trailer"))
  }

  function ShouldClose(major: int, minor: int, h: Header): (c: bool)
  {
    if major < 1 then true
    else if major == 1 && minor == 0 then !Contains(ToLower(Get(h, CONNECTION)), "keep-alive")
    else ToLower(Get(h, CONNECTION)) == "close"
  }

  predicate BodyAllowedForStatus(status: int)
  {
    !(100 <= status <= 199) && status != 204 && status != 304
  }

  datatype Framing = ByChunks | BySize(size: nat) | ToEof

  datatype Transfer = Transfer(framing: Framing, contentLength: int, close: bool) | TransferError

  function ReadTransfer(m: Incoming): (t: Transfer)
    ensures t.Transfer? && t.framing.ToEof? ==> t.close
  {
    var e := FixTransferEncoding(m.meth, m.header);
    if e.BadEncoding? then TransferError
    else
      var l := FixLength(m, e.te);
      if l.BadLength? || !TrailerAnnounced(m.header) then TransferError
      else
        var unbounded := m.isResponse && l.n == -1 && !IsChunked(e.te) && BodyAllowedForStatus(m.status);
        var close := unbounded || (m.isResponse && ShouldClose(m.major, m.minor, m.header));
        Transfer(if IsChunked(e.te) then ByChunks
                 else if l.n >= 0 then BySize(l.n)
                 else if close then ToEof else BySize(0), l.n, close)
  }

  lemma TakeOne(parts: seq<string>, e: string)
    requires |parts| == 1 && ToLower(TrimSpace(parts[0])) == e && e == "chunked"
    ensures TakeEncodings(parts) == Encodings([e])
  {
    assert parts[1..] == [];
  }

  lemma SplitWord(e: string)
    requires LowerWord(e)
    ensures var parts := Split(e, ','); |parts| == 1 && ToLower(TrimSpace(parts[0])) == e
  {
    LowerWordStays(e);
  }

  lemma ChunkedCoding(meth: string, h: Header)
    requires Has(h, TRANSFER_ENCODING) && Get(h, TRANSFER_ENCODING) == "chunked" && meth != "HEAD"
    ensures FixTransferEncoding(meth, h) == Encodings(["chunked"])
  {
    var e := Get(h, TRANSFER_ENCODING);
    SplitWord(e);
    TakeOne(Split(e, ','), e);
  }

  /** "Transfer-Encoding: chunked" makes a body chunked whatever else is said,
      even for a status that allows none. */
  lemma ReadsChunked(m: Incoming)
    requires m.meth != "HEAD" && TrailerAnnounced(m.header)
    requires Has(m.header, TRANSFER_ENCODING) && Get(m.header, TRANSFER_ENCODING) == "chunked"
    ensures ReadTransfer(m).Transfer? && ReadTransfer(m).framing == ByChunks
    ensures ReadTransfer(m).close == (m.isResponse && ShouldClose(m.major, m.minor, m.header))
    ensures !m.isResponse && m.status == 200 ==> ReadTransfer(m).contentLength == -1
  {
    ChunkedCoding(m.meth, m.header);
    assert IsChunked(["chunked"]);
  }

  /** A Content-Length decides otherwise, or is refused. */
  lemma ReadsLength(m: Incoming, v: string)
    requires m.meth != "HEAD" && TrailerAnnounced(m.header) && BodyAllowedForStatus(m.status)
    requires !Has(m.header, TRANSFER_ENCODING)
    requires Get(m.header, CONTENT_LENGTH) == v && v != "" && IsClean(v) && ParseInt(v).Number?
    ensures var n := ParseInt(v).n;
            if n < 0 then ReadTransfer(m) == TransferError
            else ReadTransfer(m) == Transfer(BySize(n), n, m.isResponse && ShouldClose(m.major, m.minor, m.header))
  {
    TrimSpaceIdentity(v);
    assert FixTransferEncoding(m.meth, m.header) == Encodings([]);
    assert !IsChunked([]);
  }

  lemma NoLength(m: Incoming)
    requires !m.isResponse && m.status == 200 && m.meth == "GET"
    requires Get(m.header, CONTENT_LENGTH) == ""
    ensures FixLength(m, []) == Length(0)
  {
    TrimSpaceIdentity("");
  }

  /** A request that mentions no body has none. */
  lemma ReadsNoLength(m: Incoming)
    requires !m.isResponse && m.status == 200 && m.meth == "GET" && TrailerAnnounced(m.header)
    requires !Has(m.header, TRANSFER_ENCODING) && Get(m.header, CONTENT_LENGTH) == ""
    ensures ReadTransfer(m) == Transfer(BySize(0), 0, false)
  {
    NoLength(m);
    assert FixTransferEncoding(m.meth, m.header) == Encodings([]);
  }

  // ---------------------------------------------------------------------
  // The body that follows a head, as one function of the wire
  // ---------------------------------------------------------------------

  const DOUBLE_CRLF := "\r\n\r\n"

  /** seeUpcomingDoubleCRLF, which looks no further than one buffer. */
  predicate DoubleCrlfWithin(w: string, room: nat)
  {
    room >= 4 && |w| >= 4 && (w[..4] == DOUBLE_CRLF || DoubleCrlfWithin(w[1..], room - 1))
  }

  predicate DoubleCrlfAt(w: string, e: int)
  {
    4 <= e <= |w| && w[e - 4..e] == DOUBLE_CRLF
  }

  /** It finds exactly what ends within the buffer. */
  lemma {:induction false} WithinIff(w: string, room: nat)
    ensures DoubleCrlfWithin(w, room) <==> exists e :: DoubleCrlfAt(w, e) && e <= room
  {
    if room >= 4 && |w| >= 4 {
      WithinIff(w[1..], room - 1);
      if e :| DoubleCrlfAt(w[1..], e) && e <= room - 1 {
        assert w[1..][e - 4..e] == w[e - 3..e + 1];
        assert DoubleCrlfAt(w, e + 1);
      }
      if w[..4] == DOUBLE_CRLF {
        assert DoubleCrlfAt(w, 4);
      }
      forall e | DoubleCrlfAt(w, e) && 4 < e <= room ensures DoubleCrlfAt(w[1..], e - 1) {
        assert w[1..][e - 5..e - 1] == w[e - 4..e];
      }
    }
  }

  predicate HasSuffix(buf: string, suffix: string)
  {
    |buf| >= |suffix| && buf[|buf| - |suffix|..] == suffix
  }

  /** seeUpcomingDoubleCRLF: ever longer peeks until one ends in a double CRLF
      or fails. */
  method SeeUpcomingDoubleCrlf(r: BufReader) returns (ends: bool)
    modifies r`latched
    ensures ends <==> DoubleCrlfWithin(r.rest, MAX_LINE)
  {
    WithinIff(r.rest, MAX_LINE);
    var size := 4;
    while true
      invariant 4 <= size <= MAX_LINE + 1
      invariant forall e :: DoubleCrlfAt(r.rest, e) ==> e >= size
      decreases MAX_LINE + 1 - size
    {
      var buf, failed := r.Peek(size);
      if HasSuffix(buf, DOUBLE_CRLF) {
        assert DoubleCrlfAt(r.rest, |buf|);
        return true;
      }
      if failed {
        return false;
      }
      assert !DoubleCrlfAt(r.rest, size) by {
        assert r.rest[..size][size - 4..] == r.rest[size - 4..size];
      }
      size := size + 1;
    }
  }

  /** The trailer after the last chunk: usually just an empty line. */
  function TrailerAt(w: string): (d: Decoded)
    ensures !d.status.Open? && d.data == ""
  {
    if |w| >= 2 && w[..2] == CRLF then Decoded("", Eof, w[2..])
    else if !DoubleCrlfWithin(w, MAX_LINE) then Decoded("", BadTrailer, w)
    else
      var f := FieldsAt(w);
      Decoded("", if f.BadHeader? then BadTrailer else Eof, f.rest)
  }

  function WithTrailer(d: Decoded): (r: Decoded)
    ensures r.data == d.data
  {
    if d.status.Eof? then Prepend(d.data, TrailerAt(d.rest)) else d
  }

  lemma WithTrailerPrepend(a: string, d: Decoded)
    ensures WithTrailer(Prepend(a, d)) == Prepend(a, WithTrailer(d))
  {
    assert d.data + "" == d.data && (a + d.data) + "" == a + d.data;
  }

  function Sized(n: nat, w: string): (d: Decoded)
  {
    if |w| <= n then Decoded(w, Eof, "") else Decoded(w[..n], Eof, w[n..])
  }

  /** The body a reader delivers, how it ends and where the reader then stands. */
  function BodyAt(f: Framing, w: string): (d: Decoded)
    ensures !d.status.Open?
  {
    match f
    case ByChunks => WithTrailer(Decode(0, w))
    case BySize(n) => Sized(n, w)
    case ToEof => Decoded(w, Eof, "")
  }

  // ---------------------------------------------------------------------
  // The body object
  // ---------------------------------------------------------------------

  /** Buffer sizes a caller may pass to Read. */
  predicate Positive(plan: seq<nat>)
  {
    forall i :: 0 <= i < |plan| ==> plan[i] > 0
  }

  class Body {
    const r: BufReader
    const framing: Framing
    const chunks: ChunkedReader
    const closing: bool
    var left: nat          // N of the LimitReader
    var trailerDue: bool   // hdr != nil
    var closed: bool
    const limitHit: bool   // res.requestBodyLimitHit

    ghost predicate Valid()
      reads this
    {
      chunks.r == r && (trailerDue ==> framing.ByChunks?)
    }

    constructor (r: BufReader, t: Transfer, limitHit: bool)
      requires t.Transfer?
      ensures Valid() && !closed && this.r == r && this.limitHit == limitHit
      ensures framing == t.framing && closing == t.close && fresh(chunks)
      ensures trailerDue <==> framing.ByChunks?
      ensures Remaining() == BodyAt(t.framing, r.rest) && chunks.Remaining() == Decode(0, r.rest)
    {
      this.r, framing, closing, this.limitHit := r, t.framing, t.close, limitHit;
      chunks := new ChunkedReader(r);
      left := if t.framing.BySize? then t.framing.size else 0;
      trailerDue := t.framing.ByChunks?;
      closed := false;
    }

    /** What reads of an unclosed body will still deliver. */
    function Remaining(): (d: Decoded)
      requires chunks.r == r
      reads this, r, chunks
    {
      match framing
      case ByChunks => if trailerDue then WithTrailer(chunks.Remaining()) else chunks.Remaining()
      case BySize(_) => Sized(left, r.rest)
      case ToEof => Decoded(r.rest, Eof, "")
    }

    /** The embedded Reader: chunked, limited or raw. */
    method ReadInner(len: nat) returns (out: string, e: Status)
      requires Valid() && len > 0
      modifies r, chunks, this`left
      ensures Valid() && |out| <= len
      ensures framing.ByChunks? ==> e == chunks.err && old(chunks.Remaining()) == Prepend(out, chunks.Remaining())
      ensures !framing.ByChunks? ==> (e == Open || e == Eof) && old(Remaining()) == Prepend(out, Remaining())
      ensures !framing.ByChunks? && e == Eof ==> Remaining().data == "" && r.rest == Remaining().rest
      ensures e.Open? ==> out != ""
    {
      match framing
      case ByChunks =>
        out, e := chunks.Read(len);
      case BySize(_) =>
        if left == 0 {
          out, e := "", Eof;
        } else {
          var eof;
          out, eof := r.Read(if len > left then left else len);
          SizedPart(left, old(r.rest), |out|);
          left := left - |out|;
          e := if eof then Eof else Open;
        }
      case ToEof =>
        var eof;
        out, eof := r.Read(len);
        e := if eof then Eof else Open;
    }

    /** body.Read. What it returns and what is still to come make up the body;
        the read that reports the end leaves the reader on the next message. An
        error of the chunks stays; what the trailer says is said once, and reads
        after that report a proper end. */
    method Read(len: nat) returns (out: string, e: Status)
      requires Valid() && len > 0
      modifies r, chunks, this`left, this`trailerDue
      ensures Valid() && |out| <= len
      ensures closed ==> out == "" && e == AfterClose && r.rest == old(r.rest)
      ensures !closed && e.Open? ==>
                old(Remaining()) == Prepend(out, Remaining()) && out != "" && trailerDue == old(trailerDue)
      ensures !closed && !e.Open? ==> old(Remaining()) == Decoded(out, e, r.rest)
      ensures !closed && e.Eof? ==> Remaining() == Decoded("", Eof, r.rest)
      ensures !closed && !e.Open? && (framing.ByChunks? ==> old(trailerDue)) ==>
                Remaining() == Decoded("", if framing.ByChunks? && !trailerDue then Eof else e, r.rest)
      ensures !closed && !e.Open? && old(trailerDue) ==> (trailerDue <==> !old(chunks.Remaining()).status.Eof?)
      ensures !closed && framing.ByChunks? ==> chunks.Remaining().status == old(chunks.Remaining()).status
    {
      if closed {
        return "", AfterClose;
      }
      out, e := ReadInner(len);
      if framing.ByChunks? {
        assert !e.Open? ==> old(chunks.Remaining()) == Decoded(out, e, r.rest);
        WithTrailerPrepend(out, chunks.Remaining());
        assert out + "" == out;
      }
      if e.Eof? && trailerDue {
        e := ReadTrailer();
        trailerDue := false;
      }
    }

    /** readTrailer: an empty line, or fields whose end is in sight. */
    method ReadTrailer() returns (e: Status)
      requires framing.ByChunks?
      modifies r
      ensures Decoded("", e, r.rest) == TrailerAt(old(r.rest))
    {
      var buf, _ := r.Peek(2);
      if buf == CRLF {
        r.ReadByte();
        r.ReadByte();
        return Eof;
      }
      var ends := SeeUpcomingDoubleCrlf(r);
      if !ends {
        return BadTrailer;
      }
      var f := FieldsAt(r.rest);
      r.rest := f.rest;
      e := if f.BadHeader? then BadTrailer else Eof;
    }

    /** body.Close. Unless the connection is about to close anyway, it reads the
        body to its end, however much of it was read before, so the next message
        starts exactly where the reader stands; its error is the body's. */
    method Close() returns (e: Status)
      requires Valid()
      modifies r, chunks, this`left, this`trailerDue, this`closed
      ensures Valid() && closed
      ensures old(closed) || (!old(trailerDue) && closing) || limitHit ==> r.rest == old(r.rest) && e == Open
      ensures !old(closed) && (old(trailerDue) || !closing) && !limitHit ==>
                r.rest == old(Remaining()).rest
                && e == (if old(Remaining()).status.Eof? then Open else old(Remaining()).status)
    {
      if closed {
        return Open;
      }
      if (!trailerDue && closing) || limitHit {
        closed := true;
        return Open;
      }
      var st := Open;
      ghost var whole := Remaining();
      ghost var seen := "";
      while st.Open?
        invariant Valid() && !closed
        invariant st.Open? ==> whole == Prepend(seen, Remaining())
        invariant !st.Open? ==> st == whole.status && r.rest == whole.rest
        decreases st.Open?, |whole.data| - |seen|
      {
        var part;
        part, st := Read(32768);
        PrependTwice(seen, part, Remaining());
        seen := seen + part;
      }
      closed := true;
      e := if st.Eof? then Open else st;
    }

    /** What a handler does with a body: reads of its own choice, then Close.
        It has seen a prefix of the body, and if the body itself is sound the
        reader now stands on the next message, however little was read. */
    method ReadAndClose(plan: seq<nat>) returns (part: string, e: Status)
      requires Valid() && !closed && (trailerDue <==> framing.ByChunks?) && !limitHit
      requires Positive(plan)
      modifies r, chunks, this`left, this`trailerDue, this`closed
      ensures closed && part <= old(Remaining()).data
      ensures old(Remaining()).status.Eof? && (framing.ByChunks? || !closing) ==>
                r.rest == old(Remaining()).rest && e == Open
    {
      part := "";
      ghost var whole := Remaining();
      for i := 0 to |plan|
        invariant Valid() && !closed && (trailerDue <==> framing.ByChunks?)
        invariant whole == Prepend(part, Remaining())
      {
        var more, st := Read(plan[i]);
        if !st.Open? {
          PrependTwice(part, more, Decoded("", st, r.rest));
          assert more + "" == more;
          part := part + more;
          e := CloseAtEnd(whole.status);
          return;
        }
        PrependTwice(part, more, Remaining());
        part := part + more;
      }
      e := Close();
    }

    /** Close after a read has already reported the end `st` of the body. */
    method CloseAtEnd(ghost st: Status) returns (e: Status)
      requires Valid() && !closed && !limitHit
      requires st.Eof? ==> Remaining() == Decoded("", Eof, r.rest)
      modifies r, chunks, this`left, this`trailerDue, this`closed
      ensures closed
      ensures st.Eof? ==> r.rest == old(r.rest) && e == Open
    {
      e := Close();
    }
  }

  lemma SizedPart(n: nat, w: string, k: nat)
    requires k <= n && k <= |w|
    ensures Sized(n, w) == Prepend(w[..k], Sized(n - k, w[k..]))
  {
    var v := w[k..];
    assert w == w[..k] + v;
    if |w| > n {
      assert w[..n] == w[..k] + v[..n - k] && w[n..] == v[n - k..];
    }
  }
}
