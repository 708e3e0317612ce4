/** Chunked bodies cut off before their end. */
module Truncated {
  import opened Text
  import opened Numerals
  import opened Chunked
  import opened Transfer

  /** A chunked body as the writer leaves it, up to the final "0" line. */
  function Encoded(pieces: seq<string>): (w: string)
  {
    ChunksOf(pieces) + "0\r\n"
  }

  function SizeLineOf(p: string): (w: string)
  {
    Format(|p|, Sixteen) + CRLF
  }

  /** The cut lies after a size line and not beyond the data of its chunk. */
  predicate InsideData(pieces: seq<string>, cut: int)
  {
    pieces != [] &&
    var p := pieces[0];
    if cut < |ChunkOf(p)| then |SizeLineOf(p)| <= cut <= |SizeLineOf(p)| + |p|
    else InsideData(pieces[1..], cut - |ChunkOf(p)|)
  }

  lemma LineCut(w: string)
    requires '\n' !in w && |w| < MAX_LINE
    ensures Decode(0, w) == Decoded("", UnexpectedEof, "")
  {
    LastSlice(w);
  }

  lemma CutSizeLine(n: nat, k: nat)
    requires n < UINT64_LIMIT && k < |Format(n, Sixteen) + CRLF|
    ensures Decode(0, (Format(n, Sixteen) + CRLF)[..k]) == Decoded("", UnexpectedEof, "")
  {
    var s := Format(n, Sixteen);
    var w := (s + CRLF)[..k];
    HexHasNoNewline(n);
    HexLength(n);
    assert forall i :: 0 <= i < k ==> w[i] == if i < |s| then s[i] else '\r';
    LineCut(w);
  }

  /** After the size line of a chunk, the rest of the chunk is read by count. */
  lemma AfterSizeLine(p: string, rest: string)
    requires 0 < |p| < INT64_LIMIT
    ensures Decode(0, SizeLineOf(p) + rest) == Decode(|p|, rest)
  {
    ChunkBegins(|p|, rest);
  }

  lemma CutData(p: string, k: nat)
    requires 0 < |p| && k <= |p|
    ensures Decode(|p|, p[..k]) == Decoded(p[..k], Eof, "")
  {
    var w := p[..k];
    if k == |p| {
      assert w[..|p|] == w && w[|p|..] == "" && w + "" == w;
    }
  }

  lemma CutEnd(p: string)
    requires 0 < |p|
    ensures Decode(|p|, p + "\r") == Decoded(p, UnexpectedEof, "")
  {
    var w := p + "\r";
    assert w[..|p|] == p && w[|p|..] == "\r" && p + "" == p;
  }

  /** One chunk, cut anywhere. */
  lemma ChunkCut(p: string, cut: nat)
    requires 0 < |p| < INT64_LIMIT && cut < |ChunkOf(p)|
    ensures var d := Decode(0, ChunkOf(p)[..cut]);
            && d.rest == "" && d.data <= p
            && d.status == (if |SizeLineOf(p)| <= cut <= |SizeLineOf(p)| + |p| then Eof else UnexpectedEof)
  {
    var line, w := SizeLineOf(p), ChunkOf(p)[..cut];
    if cut < |line| {
      assert w == line[..cut];
      CutSizeLine(|p|, cut);
    } else if cut <= |line| + |p| {
      var k := cut - |line|;
      assert w == line + p[..k];
      AfterSizeLine(p, p[..k]);
      CutData(p, k);
    } else {
      assert w == line + (p + "\r");
      AfterSizeLine(p, p + "\r");
      CutEnd(p);
    }
  }

  lemma EncodedCut(p: string, tail: string, cut: nat)
    requires cut <= |p + tail|
    ensures cut < |p| ==> (p + tail)[..cut] == p[..cut]
    ensures cut >= |p| ==> (p + tail)[..cut] == p + tail[..cut - |p|]
  {
  }

  lemma PrefixOf(p: string, d: string, c: string)
    requires d <= c
    ensures p + d <= p + c
  {
    assert (p + c)[..|p + d|] == p + d;
  }

  /** How a cut encoding is decoded. */
  predicate CutAs(d: Decoded, whole: string, inside: bool)
  {
    d.rest == "" && d.data <= whole && d.status == if inside then Eof else UnexpectedEof
  }

  lemma FirstCut(p: string, tail: string, cut: nat)
    requires cut < |ChunkOf(p)| && |p| < INT64_LIMIT
    ensures CutAs(Decode(0, ChunkOf(p)[..cut]), p + tail, |SizeLineOf(p)| <= cut <= |SizeLineOf(p)| + |p|)
  {
    ChunkCut(p, cut);
    assert p <= p + tail;
  }

  lemma LaterCut(p: string, w: string, whole: string, inside: bool)
    requires |p| < INT64_LIMIT && CutAs(Decode(0, w), whole, inside)
    ensures CutAs(Decode(0, ChunkOf(p) + w), p + whole, inside)
  {
    PrefixOf(p, Decode(0, w).data, whole);
    if p == "" {
      assert ChunkOf(p) + w == w && p + whole == whole;
    } else {
      OneChunk(p, w);
    }
  }

  lemma ZeroCut(w: string, cut: nat)
    requires w == "0\r\n" && cut < |w|
    ensures CutAs(Decode(0, w[..cut]), "", false)
  {
    assert w == Format(0, Sixteen) + CRLF;
    CutSizeLine(0, cut);
  }

  lemma StepCut(p: string, rest: string, cut: nat, tail: string, inside: bool)
    requires |p| < INT64_LIMIT && cut < |ChunkOf(p) + rest|
    requires cut >= |ChunkOf(p)| ==> CutAs(Decode(0, rest[..cut - |ChunkOf(p)|]), tail, inside)
    requires cut < |ChunkOf(p)| ==> inside == (|SizeLineOf(p)| <= cut <= |SizeLineOf(p)| + |p|)
    ensures CutAs(Decode(0, (ChunkOf(p) + rest)[..cut]), p + tail, inside)
  {
    EncodedCut(ChunkOf(p), rest, cut);
    if cut < |ChunkOf(p)| {
      FirstCut(p, tail, cut);
    } else {
      LaterCut(p, rest[..cut - |ChunkOf(p)|], tail, inside);
    }
  }

  lemma EncodedFirst(pieces: seq<string>)
    requires pieces != []
    ensures Encoded(pieces) == ChunkOf(pieces[0]) + Encoded(pieces[1..])
  {
    ChunksOfFirst(pieces);
    Assoc(ChunkOf(pieces[0]), ChunksOf(pieces[1..]), "0\r\n");
  }

  lemma {:induction false} EncodingCut(pieces: seq<string>, cut: nat)
    requires SliceSized(pieces) && cut < |Encoded(pieces)|
    ensures CutAs(Decode(0, Encoded(pieces)[..cut]), Concat(pieces), InsideData(pieces, cut))
  {
    if pieces == [] {
      ZeroCut(Encoded(pieces), cut);
    } else {
      var p := pieces[0];
      EncodedFirst(pieces);
      if cut >= |ChunkOf(p)| {
        EncodingCut(pieces[1..], cut - |ChunkOf(p)|);
      }
      StepCut(p, Encoded(pieces[1..]), cut, Concat(pieces[1..]), InsideData(pieces, cut));
    }
  }

  /** A body cut off before its final "0" line delivers a prefix of the data. Its
      end passes for a proper one exactly if the cut lies inside the data of a
      chunk. */
  lemma TruncatedEndsIff(pieces: seq<string>, cut: nat)
    requires SliceSized(pieces) && cut < |Encoded(pieces)|
    ensures var d := Decode(0, Encoded(pieces)[..cut]);
            (d.status.Eof? <==> InsideData(pieces, cut)) && d.data <= Concat(pieces)
  {
    EncodingCut(pieces, cut);
  }

  lemma NoTrailer(w: string)
    requires |w| < 2
    ensures TrailerAt(w).status == BadTrailer
  {
  }

  /** The body object is not deceived: it misses the trailer, and never reports
      the end of a message that was cut off anywhere. */
  lemma TruncatedBodyFails(pieces: seq<string>, cut: nat)
    requires SliceSized(pieces) && cut < |Encoded(pieces) + CRLF|
    ensures !BodyAt(ByChunks, (Encoded(pieces) + CRLF)[..cut]).status.Eof?
  {
    var e := Encoded(pieces);
    EncodedCut(e, CRLF, cut);
    NoTrailer("");
    if cut < |e| {
      EncodingCut(pieces, cut);
    } else {
      var rest := CRLF[..cut - |e|];
      DecodeUndoesWrites(pieces, rest);
      NoTrailer(rest);
    }
  }

  /** A body of declared length that is cut short ends like a whole one. */
  lemma SizedEndsAlways(data: string, cut: nat)
    requires cut < |data|
    ensures BodyAt(BySize(|data|), data[..cut]) == Decoded(data[..cut], Eof, "")
  {
  }

  /** The chunks themselves say nothing about a trailer. */
  lemma {:induction false} DecodeEnds(n: nat, w: string)
    ensures !Decode(n, w).status.BadTrailer?
    decreases |w|, if n == 0 then 2 else 1
  {
    if n == 0 {
      var b := ChunkAt(w);
      if b.status.Open? {
        DecodeEnds(b.size, b.rest);
      }
    } else if |w| >= n {
      EndEnds(w[n..]);
    }
  }

  lemma {:induction false} EndEnds(w: string)
    ensures !ChunkEnd(w).status.BadTrailer?
    decreases |w|, 0
  {
    if |w| >= 2 && w[0] == '\r' && w[1] == '\n' {
      DecodeEnds(0, w[2..]);
    }
  }

  /** Reading a chunked body to its first end. */
  method ReadToEnd(body: Body, ghost wire: string, size: nat) returns (out: string, first: Status)
    requires body.Valid() && !body.closed && body.framing.ByChunks? && body.trailerDue && size > 0
    requires body.Remaining() == BodyAt(ByChunks, wire) && body.chunks.Remaining().status == Decode(0, wire).status
    modifies body.r, body.chunks, body`left, body`trailerDue
    ensures body.Valid() && !first.Open? && Decoded(out, first, body.r.rest) == BodyAt(ByChunks, wire)
    ensures body.trailerDue <==> !Decode(0, wire).status.Eof?
    ensures body.Remaining() == Decoded("", if body.trailerDue then first else Eof, body.r.rest)
  {
    out, first := "", Open;
    assert "" + BodyAt(ByChunks, wire).data == BodyAt(ByChunks, wire).data;
    while first.Open?
      invariant body.Valid() && !body.closed && body.chunks.Remaining().status == Decode(0, wire).status
      invariant first.Open? ==> BodyAt(ByChunks, wire) == Prepend(out, body.Remaining()) && body.trailerDue
      invariant !first.Open? ==> Decoded(out, first, body.r.rest) == BodyAt(ByChunks, wire)
      invariant !first.Open? ==> body.Remaining() == Decoded("", if body.trailerDue then first else Eof, body.r.rest)
      invariant !first.Open? ==> (body.trailerDue <==> !Decode(0, wire).status.Eof?)
      decreases first.Open?, |BodyAt(ByChunks, wire).data| - |out|
    {
      var part;
      part, first := body.Read(size);
      PrependTwice(out, part, body.Remaining());
      out := out + part;
    }
  }

  /** What a chunked message that ends in an error of its trailer says is an error
      the first time and a proper end from then on; closing it reports nothing. Any
      other end is said again. */
  method EndsTwice(wire: string, size: nat) returns (out: string, first: Status, second: Status, atClose: Status)
    requires size > 0
    ensures Decoded(out, first, BodyAt(ByChunks, wire).rest) == BodyAt(ByChunks, wire)
    ensures second == if first.BadTrailer? then Eof else first
    ensures first.BadTrailer? ==> atClose.Open?
  {
    var r := new BufReader(wire);
    var body := new Body(r, Transfer(ByChunks, -1, false), false);
    out, first := ReadToEnd(body, wire, size);
    DecodeEnds(0, wire);
    var none;
    none, second := body.Read(size);
    atClose := body.Close();
  }

  /** So for a message cut off anywhere: the first end is an error; the second is a
      proper end exactly if the cut lies inside the data of a chunk or behind the
      final "0" line. */
  method TruncatedEndsTwice(pieces: seq<string>, cut: nat, size: nat)
    returns (out: string, first: Status, second: Status, atClose: Status)
    requires SliceSized(pieces) && cut < |Encoded(pieces) + CRLF| && size > 0
    ensures !first.Eof? && (second.Eof? <==> cut >= |Encoded(pieces)| || InsideData(pieces, cut))
    ensures second.Eof? ==> first.BadTrailer? && atClose.Open?
  {
    var w := (Encoded(pieces) + CRLF)[..cut];
    TruncatedBodyFails(pieces, cut);
    CutStatus(pieces, cut);
    out, first, second, atClose := EndsTwice(w, size);
  }

  /** The first end of a message cut off anywhere. */
  lemma CutStatus(pieces: seq<string>, cut: nat)
    requires SliceSized(pieces) && cut < |Encoded(pieces) + CRLF|
    ensures BodyAt(ByChunks, (Encoded(pieces) + CRLF)[..cut]).status
         == if cut >= |Encoded(pieces)| || InsideData(pieces, cut) then BadTrailer else UnexpectedEof
  {
    var e := Encoded(pieces);
    EncodedCut(e, CRLF, cut);
    NoTrailer("");
    if cut < |e| {
      EncodingCut(pieces, cut);
    } else {
      var rest := CRLF[..cut - |e|];
      DecodeUndoesWrites(pieces, rest);
      NoTrailer(rest);
    }
  }
}
