/** The "chunked" transfer coding of section 3.6.1 of RFC 2616: the writer, a
    whole-string decoder that fixes its meaning, and the incremental reader. */
module Chunked {
  import opened Text
  import opened Numerals

  /** The error of a body reader; `Open` is nil. The last two belong to the
      `body` object that wraps a chunked reader. */
  datatype Status = Open | Eof | UnexpectedEof | LineTooLong | BadSize | SizeOutOfRange | Malformed
                  | BadTrailer | AfterClose

  /** How bufio's ReadSlice ended. */
  datatype SliceEnd = Newline | BufferFull | AtEof

  const MAX_LINE := 4096
  const LINE_CUT := {' ', '\r', '\t', '\n'}

  // ---------------------------------------------------------------------
  // The decoder as one function of all the bytes the peer will ever send
  // ---------------------------------------------------------------------

  datatype Line = Line(text: string, rest: string) | LineError(status: Status, rest: string)

  /** readLine on a reader holding `w`, its buffer being MAX_LINE bytes long. */
  function LineAt(w: string): (r: Line)
    ensures r.Line? ==> |r.rest| < |w|
    ensures r.LineError? ==> r.status.UnexpectedEof? || r.status.LineTooLong?
  {
    var i := IndexOf(w, '\n');
    if 0 <= i < MAX_LINE - 1 then Line(TrimRight(w[..i + 1], LINE_CUT), w[i + 1..])
    else if |w| >= MAX_LINE then LineError(LineTooLong, w[MAX_LINE..])
    else LineError(UnexpectedEof, "")
  }

  /** Result of beginChunk: the size of the chunk that follows, or the error. */
  datatype Begin = Begin(size: nat, status: Status, rest: string)

  function ChunkAt(w: string): (b: Begin)
    ensures b.status.Open? ==> 0 < b.size < UINT64_LIMIT && |b.rest| < |w|
  {
    SizeIn(LineAt(w))
  }

  /** The size a line stands for. */
  function SizeIn(l: Line): (b: Begin)
    ensures b.rest == l.rest
    ensures b.status.Open? && (l.LineError? ==> !l.status.Open?) ==> l.Line? && 0 < b.size < UINT64_LIMIT
  {
    if l.LineError? then Begin(0, l.status, l.rest)
    else
      match ParseUint(l.text, Sixteen)
      case Syntax => Begin(0, BadSize, l.rest)
      case OutOfRange => Begin(UINT64_LIMIT - 1, SizeOutOfRange, l.rest)
      case Number(n) => if n == 0 then Begin(0, Eof, l.rest) else Begin(n, Open, l.rest)
  }

  /** Everything a reader will deliver, how it ends, and what it leaves unread. */
  datatype Decoded = Decoded(data: string, status: Status, rest: string)

  function Prepend(a: string, d: Decoded): (r: Decoded)
    ensures r.status == d.status && r.rest == d.rest
  {
    Decoded(a + d.data, d.status, d.rest)
  }

  lemma PrependTwice(a: string, b: string, d: Decoded)
    ensures Prepend(a, Prepend(b, d)) == Prepend(a + b, d)
  {
    Assoc(a, b, d.data);
  }

  /** The body that follows when `n` bytes of the current chunk are unread. A
      body cut off inside a chunk ends with plain Eof, as the reader does. */
  function Decode(n: nat, w: string): (d: Decoded)
    ensures !d.status.Open?
    decreases |w|, if n == 0 then 2 else 1
  {
    if n == 0 then
      var b := ChunkAt(w);
      if b.status.Open? then Decode(b.size, b.rest) else Decoded("", b.status, b.rest)
    else if |w| < n then Decoded(w, Eof, "")
    else Prepend(w[..n], ChunkEnd(w[n..]))
  }

  /** What follows the last byte of a chunk: its CRLF, then the next chunk. */
  function ChunkEnd(w: string): (d: Decoded)
    ensures !d.status.Open?
    decreases |w|, 0
  {
    if |w| == 0 then Decoded("", Eof, "")
    else if |w| == 1 then Decoded("", UnexpectedEof, "")
    else if w[0] != '\r' || w[1] != '\n' then Decoded("", Malformed, w[2..])
    else Decode(0, w[2..])
  }

  // ---------------------------------------------------------------------
  // The writer
  // ---------------------------------------------------------------------

  /** The bytes one chunkedWriter.Write puts on the wire. */
  function ChunkOf(p: string): (w: string)
  {
    if p == "" then "" else Format(|p|, Sixteen) + CRLF + p + CRLF
  }

  function Chunker(): (f: string -> string)
  {
    p => ChunkOf(p)
  }

  function ChunksOf(pieces: seq<string>): (w: string)
  {
    Flat(Chunker(), pieces)
  }

  lemma ChunksOfFirst(pieces: seq<string>)
    requires pieces != []
    ensures ChunksOf(pieces) == ChunkOf(pieces[0]) + ChunksOf(pieces[1..])
  {
  }

  lemma ChunksOfAppend(pieces: seq<string>, p: string)
    ensures ChunksOf(pieces + [p]) == ChunksOf(pieces) + ChunkOf(p)
  {
    FlatAppend(Chunker(), pieces, [p]);
    FlatOne(Chunker(), p);
  }

  /** Go slices are shorter than 2^63, so a chunk size always fits its int64. */
  predicate SliceSized(pieces: seq<string>)
  {
    forall i :: 0 <= i < |pieces| ==> |pieces[i]| < INT64_LIMIT
  }

  class ChunkedWriter {
    var wire: string

    constructor ()
      ensures wire == ""
    {
      wire := "";
    }

    method Write(data: string) returns (n: nat)
      modifies this
      ensures wire == old(wire) + ChunkOf(data)
      ensures n == |data|
    {
      if |data| == 0 {
        return 0;
      }
      wire := wire + (Format(|data|, Sixteen) + CRLF);
      wire := wire + data;
      n := |data|;
      wire := wire + CRLF;
    }

    method Close()
      modifies this
      ensures wire == old(wire) + "0\r\n"
    {
      wire := wire + "0\r\n";
    }
  }

  // ---------------------------------------------------------------------
  // Decoding undoes writing
  // ---------------------------------------------------------------------

  lemma HexHasNoNewline(n: nat)
    ensures '\n' !in Format(n, Sixteen) && IsHexDigit(Format(n, Sixteen)[|Format(n, Sixteen)| - 1])
  {
    var s := Format(n, Sixteen);
    assert forall i :: 0 <= i < |s| ==> IsHexDigit(s[i]) && s[i] != '\n';
  }

  lemma ShortLine(text: string, rest: string)
    requires '\n' !in text && 0 < |text| < MAX_LINE - 2 && IsHexDigit(text[|text| - 1])
    ensures LineAt(text + CRLF + rest) == Line(text, rest)
  {
    var w := text + CRLF + rest;
    var head := text + "\r";
    assert w == head + ['\n'] + rest;
    IndexOfSplit(head, '\n', rest);
    assert w[..|head| + 1] == text + CRLF && w[|head| + 1..] == rest;
    TrimRightExact(text, CRLF, LINE_CUT);
  }

  lemma SizeLine(n: nat, rest: string)
    requires n < UINT64_LIMIT
    ensures LineAt(Format(n, Sixteen) + CRLF + rest) == Line(Format(n, Sixteen), rest)
  {
    HexLength(n);
    HexHasNoNewline(n);
    ShortLine(Format(n, Sixteen), rest);
  }

  lemma ChunkBegins(n: nat, rest: string)
    requires n < UINT64_LIMIT
    ensures ChunkAt(Format(n, Sixteen) + CRLF + rest) == Begin(n, if n == 0 then Eof else Open, rest)
  {
    SizeLine(n, rest);
    FormatParse(n, Sixteen);
  }

  lemma LastChunk(rest: string)
    ensures Decode(0, "0\r\n" + rest) == Decoded("", Eof, rest)
  {
    ChunkBegins(0, rest);
    assert Format(0, Sixteen) == "0";
    assert "0" + CRLF + rest == "0\r\n" + rest;
  }

  lemma WholeChunk(p: string, t: string)
    requires p != ""
    ensures Decode(|p|, p + t) == Prepend(p, ChunkEnd(t))
  {
    var w := p + t;
    assert w[..|p|] == p && w[|p|..] == t;
  }

  lemma ChunkEnds(rest: string)
    ensures ChunkEnd(CRLF + rest) == Decode(0, rest)
  {
    var w := CRLF + rest;
    assert w[2..] == rest;
  }

  lemma ChunkBytes(p: string, rest: string)
    requires p != ""
    ensures Decode(|p|, p + (CRLF + rest)) == Prepend(p, Decode(0, rest))
  {
    WholeChunk(p, CRLF + rest);
    ChunkEnds(rest);
  }

  lemma OneChunk(p: string, rest: string)
    requires 0 < |p| < INT64_LIMIT
    ensures Decode(0, ChunkOf(p) + rest) == Prepend(p, Decode(0, rest))
  {
    var size := Format(|p|, Sixteen) + CRLF;
    var tail := p + (CRLF + rest);
    assert ChunkOf(p) + rest == size + tail by {
      Assoc(size, p, CRLF);
      Assoc(size, p + CRLF, rest);
      Assoc(p, CRLF, rest);
    }
    ChunkBegins(|p|, tail);
    ChunkBytes(p, rest);
  }

  lemma MoreChunk(p: string, w: string, data: string, rest: string)
    requires |p| < INT64_LIMIT && Decode(0, w) == Decoded(data, Eof, rest)
    ensures Decode(0, ChunkOf(p) + w) == Decoded(p + data, Eof, rest)
  {
    if p == "" {
      assert ChunkOf(p) + w == w && p + data == data;
    } else {
      OneChunk(p, w);
    }
  }

  /** Whatever writes produced the chunks, the decoder returns their bytes in
      order, ends with Eof, and stops exactly after the final "0" line. */
  lemma {:induction false} DecodeUndoesWrites(pieces: seq<string>, rest: string)
    requires SliceSized(pieces)
    ensures Decode(0, ChunksOf(pieces) + "0\r\n" + rest) == Decoded(Concat(pieces), Eof, rest)
  {
    if pieces == [] {
      LastChunk(rest);
      assert "" + "0\r\n" + rest == "0\r\n" + rest;
    } else {
      var w := ChunksOf(pieces[1..]) + "0\r\n" + rest;
      DecodeUndoesWrites(pieces[1..], rest);
      ChunksOfFirst(pieces);
      Assoc(ChunkOf(pieces[0]), ChunksOf(pieces[1..]), "0\r\n");
      Assoc(ChunkOf(pieces[0]), ChunksOf(pieces[1..]) + "0\r\n", rest);
      MoreChunk(pieces[0], w, Concat(pieces[1..]), rest);
    }
  }

  // ---------------------------------------------------------------------
  // The incremental reader
  // ---------------------------------------------------------------------

  /** bufio.Reader over a connection: `rest` is all that will still arrive, and
      each read hands out an arbitrary part of it. `latched` is an EOF the
      source reported together with bytes that are still buffered. */
  class BufReader {
    var rest: string
    var latched: bool

    constructor (wire: string)
      ensures rest == wire && !latched
    {
      rest := wire;
      latched := false;
    }

    /** Some of the bytes, at least one if there are any; EOF may come with the
        last of them. An empty read returns only a latched error. */
    method Read(len: nat) returns (out: string, eof: bool)
      modifies this
      ensures out + rest == old(rest) && |out| <= len
      ensures len > 0 && eof ==> rest == ""
      ensures len > 0 && old(rest) != "" ==> out != ""
      ensures len > 0 && old(rest) == "" ==> eof
      ensures len == 0 ==> eof == old(latched)
    {
      if len == 0 {
        out, eof, latched := "", latched, false;
        return;
      }
      var most := if len < |rest| then len else |rest|;
      var k: nat :| k <= most && (most > 0 ==> k > 0);
      var early: bool :| early ==> k == |rest|;
      out, eof := rest[..k], early || |rest| == 0;
      rest := rest[k..];
      latched := *;
    }

    /** ReadSlice('\n'): the buffer is filled, by reads of any size, until it
        holds a newline, is full, or nothing more comes. */
    method ReadSlice() returns (p: string, end: SliceEnd)
      modifies this
      ensures p + rest == old(rest)
      ensures end.Newline? ==> 0 < |p| <= MAX_LINE && p[|p| - 1] == '\n' && '\n' !in p[..|p| - 1]
      ensures end.BufferFull? ==> |p| == MAX_LINE && '\n' !in p
      ensures end.AtEof? ==> |p| < MAX_LINE && '\n' !in p && rest == ""
    {
      latched := *;
      var held := 0;
      while true
        invariant 0 <= held <= |rest| && held <= MAX_LINE && '\n' !in rest[..held] && rest == old(rest)
        decreases MAX_LINE - held
      {
        if held == |rest| || held >= MAX_LINE {
          p, end := rest[..held], if held >= MAX_LINE then BufferFull else AtEof;
          rest := rest[held..];
          return;
        }
        var most := if |rest| < MAX_LINE then |rest| else MAX_LINE;
        var next: nat :| held < next <= most;
        var i := IndexOf(rest[held..next], '\n');
        if i >= 0 {
          FirstNewline(rest, held, next);
          p, end := rest[..held + i + 1], Newline;
          rest := rest[held + i + 1..];
          return;
        }
        NoNewlineYet(rest, held, next);
        held := next;
      }
    }

    /** readLineBytes. A line is what comes up to the first newline, without the
        blanks at its end; too long a line and a missing newline are errors. */
    method ReadLine() returns (text: string, status: Status)
      modifies this
      ensures LineAt(old(rest)) == if status.Open? then Line(text, rest) else LineError(status, rest)
      ensures status.Open? ==>
                var n := |old(rest)| - |rest|;
                && 0 < n < MAX_LINE && old(rest)[n - 1] == '\n' && '\n' !in old(rest)[..n - 1]
                && text == TrimRight(old(rest)[..n], LINE_CUT) && rest == old(rest)[n..]
      ensures status.UnexpectedEof? <==> '\n' !in old(rest) && |old(rest)| < MAX_LINE
    {
      var p, end := ReadSlice();
      text := "";
      if end.AtEof? {
        LastSlice(p);
        assert p + rest == p;
        status := UnexpectedEof;
        return;
      }
      if end.BufferFull? {
        FullSlice(p, rest);
        status := LineTooLong;
        return;
      }
      NewlineSlice(p, rest);
      if |p| >= MAX_LINE {
        status := LineTooLong;
        return;
      }
      text, status := TrimRight(p, LINE_CUT), Open;
    }

    /** Peek: the next bytes without taking them; fewer, or more than the buffer
        holds, is an error. */
    method Peek(n: nat) returns (buf: string, failed: bool)
      modifies this`latched
      ensures n <= MAX_LINE && n <= |rest| ==> !failed && buf == rest[..n]
      ensures n <= MAX_LINE && n > |rest| ==> failed && buf == rest
      ensures n > MAX_LINE ==> failed && buf == ""
    {
      if n > MAX_LINE {
        return "", true;
      }
      latched := *;
      failed := |rest| < n;
      buf := if failed then rest else rest[..n];
    }

    method ReadByte()
      requires rest != ""
      modifies this
      ensures rest == old(rest)[1..]
    {
      latched := *;
      rest := rest[1..];
    }

    /** io.ReadFull of two bytes. */
    method ReadTwo() returns (b: string, status: Status)
      modifies this
      ensures |old(rest)| == 0 ==> status == Eof && rest == ""
      ensures |old(rest)| == 1 ==> status == UnexpectedEof && rest == ""
      ensures |old(rest)| >= 2 ==> status == Open && b == old(rest)[..2] && rest == old(rest)[2..]
    {
      latched := *;
      if |rest| < 2 {
        b, status, rest := rest, if |rest| == 0 then Eof else UnexpectedEof, "";
      } else {
        b, status, rest := rest[..2], Open, rest[2..];
      }
    }
  }

  lemma NoNewlineYet(w: string, held: nat, next: nat)
    requires held <= next <= |w| && '\n' !in w[..held] && '\n' !in w[held..next]
    ensures '\n' !in w[..next]
  {
    assert w[..next] == w[..held] + w[held..next];
  }

  lemma FirstNewline(w: string, held: nat, next: nat)
    requires held <= next <= |w| && '\n' !in w[..held] && '\n' in w[held..next]
    ensures var k := held + IndexOf(w[held..next], '\n'); k < |w| && w[k] == '\n' && '\n' !in w[..k + 1][..k]
  {
    var i := IndexOf(w[held..next], '\n');
    assert w[..held + i + 1][..held + i] == w[..held] + w[held..next][..i];
  }

  /** What a slice, and how it ended, says about the bytes ahead. */
  lemma NewlineSlice(p: string, rest: string)
    requires 0 < |p| <= MAX_LINE && p[|p| - 1] == '\n' && '\n' !in p[..|p| - 1]
    ensures LineAt(p + rest)
         == if |p| < MAX_LINE then Line(TrimRight(p, LINE_CUT), rest) else LineError(LineTooLong, rest)
  {
    var w := p + rest;
    NewlineEnds(p, rest);
    assert w[..|p|] == p && w[|p|..] == rest;
  }

  lemma NewlineEnds(p: string, rest: string)
    requires 0 < |p| && p[|p| - 1] == '\n' && '\n' !in p[..|p| - 1]
    ensures IndexOf(p + rest, '\n') == |p| - 1
  {
    var q := p[..|p| - 1];
    assert p == q + ['\n'];
    IndexOfSplit(q, '\n', rest);
  }

  lemma FullSlice(p: string, rest: string)
    requires |p| == MAX_LINE && '\n' !in p
    ensures LineAt(p + rest) == LineError(LineTooLong, rest)
  {
    var w := p + rest;
    assert w[|p|..] == rest;
    assert forall k :: 0 <= k < |p| ==> w[k] == p[k];
  }

  lemma LastSlice(p: string)
    requires |p| < MAX_LINE && '\n' !in p
    ensures LineAt(p) == LineError(UnexpectedEof, "")
  {
  }

  class ChunkedReader {
    const r: BufReader
    var n: nat
    var err: Status

    constructor (r: BufReader)
      ensures this.r == r && n == 0 && err == Open
    {
      this.r := r;
      n, err := 0, Open;
    }

    /** All that this reader will still deliver, whatever the reads. */
    function Remaining(): (d: Decoded)
      reads this, r
    {
      if err.Open? then Decode(n, r.rest) else Decoded("", err, r.rest)
    }

    method BeginChunk()
      requires err.Open? && n == 0
      modifies this, r
      ensures Begin(n, err, r.rest) == ChunkAt(old(r.rest))
    {
      var line, e := r.ReadLine();
      err := e;
      if !err.Open? {
        return;
      }
      match ParseUint(line, Sixteen)
      case Syntax => n, err := 0, BadSize;
      case OutOfRange => n, err := UINT64_LIMIT - 1, SizeOutOfRange;
      case Number(v) =>
        n := v;
        if n == 0 {
          err := Eof;
        }
    }

    /** The CRLF that must follow the bytes of a chunk. */
    method EndChunk()
      requires err.Open? && n == 0
      modifies this, r
      ensures n == 0 && Remaining() == ChunkEnd(old(r.rest))
    {
      var b;
      b, err := r.ReadTwo();
      if err.Open? && (b[0] != '\r' || b[1] != '\n') {
        err := Malformed;
      }
    }

    /** One Read into a buffer of `len` bytes. The bytes it returns and those
        still to come are exactly the decoder's, its final error and its final
        position too; an error, once set, stays and delivers nothing. A read
        into a non-empty buffer delivers a byte or ends the body. */
    method Read(len: nat) returns (out: string, e: Status)
      modifies this, r
      ensures |out| <= len && e == err
      ensures !old(err).Open? ==> out == "" && err == old(err) && r.rest == old(r.rest) && n == old(n)
      ensures len > 0 || e.Open? ==> old(Remaining()) == Prepend(out, Remaining())
      ensures len > 0 && e.Open? ==> out != ""
    {
      if !err.Open? {
        return "", err;
      }
      if n == 0 {
        BeginChunk();
        if !err.Open? {
          return "", err;
        }
      }
      assert old(Remaining()) == Decode(n, r.rest);
      out := ReadInChunk(len);
      return out, err;
    }

    /** The part of Read that runs inside a chunk. */
    method ReadInChunk(len: nat) returns (out: string)
      requires err.Open? && n > 0
      modifies this, r
      ensures |out| <= len
      ensures len > 0 || err.Open? ==> Decode(old(n), old(r.rest)) == Prepend(out, Remaining())
      ensures len > 0 && err.Open? ==> out != ""
    {
      var eof;
      out, eof := r.Read(if len > n then n else len);
      PartOfChunk(n, old(r.rest), |out|);
      assert old(r.rest)[..|out|] == out && old(r.rest)[|out|..] == r.rest;
      err := if eof then Eof else Open;
      n := n - |out|;
      if n == 0 && err.Open? {
        EndChunk();
      }
    }

    /** Any schedule of reads delivers a prefix of the decoded body; once the
        reader reports its end, it has delivered all of it and stands where the
        decoder stands. */
    method ReadSchedule(sizes: seq<nat>) returns (out: string, e: Status)
      requires forall i :: 0 <= i < |sizes| ==> sizes[i] > 0
      modifies this, r
      ensures e == err
      ensures old(Remaining()) == Prepend(out, Remaining())
      ensures !e.Open? ==> old(Remaining()) == Decoded(out, e, r.rest)
      ensures e.Open? ==> |out| >= |sizes|
    {
      out, e := "", err;
      ghost var whole := Remaining();
      for i := 0 to |sizes|
        invariant e == err
        invariant whole == Prepend(out, Remaining())
        invariant e.Open? ==> |out| >= i
      {
        var part;
        part, e := Read(sizes[i]);
        PrependTwice(out, part, Remaining());
        out := out + part;
      }
    }

    /** ioutil.ReadAll: reads of any positive size until an error is returned. */
    method ReadAll(size: nat) returns (out: string, e: Status)
      requires size > 0
      modifies this, r
      ensures old(Remaining()) == Decoded(out, e, r.rest) && e == err
    {
      out, e := "", err;
      ghost var whole := Remaining();
      while e.Open?
        invariant e == err
        invariant whole == Prepend(out, Remaining())
        decreases |whole.data| - |out|, e.Open?
      {
        var part;
        part, e := Read(size);
        PrependTwice(out, part, Remaining());
        out := out + part;
      }
    }
  }

  /** Taking `k` bytes of a chunk leaves the decoder on the rest of that chunk. */
  lemma PartOfChunk(n: nat, w: string, k: nat)
    requires n > 0 && k <= n && k <= |w|
    ensures k < n ==> Decode(n, w) == Prepend(w[..k], Decode(n - k, w[k..]))
    ensures k == |w| ==> Decode(n, w) == Prepend(w[..k], Decoded("", Eof, ""))
    ensures k == n ==> Decode(n, w) == Prepend(w[..k], ChunkEnd(w[k..]))
  {
    var v := w[k..];
    assert w == w[..k] + v;
    assert k == |w| ==> w[..k] == w;
    if k < n <= |w| {
      assert w[..n] == w[..k] + v[..n - k];
      assert w[n..] == v[n - k..];
      PrependTwice(w[..k], v[..n - k], ChunkEnd(w[n..]));
    }
  }

  /** End to end: what a ChunkedWriter sends, a ChunkedReader returns under
      every schedule, leaving the bytes after the last chunk untouched. */
  method SendAndReceive(pieces: seq<string>, after: string, size: nat) returns (out: string, left: string)
    requires SliceSized(pieces) && size > 0
    ensures out == Concat(pieces) && left == after
  {
    var cw := new ChunkedWriter();
    for i := 0 to |pieces|
      invariant cw.wire == ChunksOf(pieces[..i])
    {
      var _ := cw.Write(pieces[i]);
      ChunksOfAppend(pieces[..i], pieces[i]);
      assert pieces[..i + 1] == pieces[..i] + [pieces[i]];
    }
    assert pieces[..|pieces|] == pieces;
    cw.Close();
    var r := new BufReader(cw.wire + after);
    var cr := new ChunkedReader(r);
    DecodeUndoesWrites(pieces, after);
    var e;
    out, e := cr.ReadAll(size);
    left := r.rest;
  }
}
