/** The FastCGI codec: records and streams (section 3.3 of the FastCGI
    specification) and name-value pairs (section 3.4). */
module Fcgi {
  import opened Text

  type byte = b: int | 0 <= b < 256

  const MAX_WRITE := 65535
  const HEADER_LEN := 8
  const TYPE_BEGIN: byte := 1
  const TYPE_ABORT: byte := 2
  const TYPE_PARAMS: byte := 4
  const TYPE_STDIN: byte := 5
  const TYPE_GET_VALUES: byte := 9

  // ---------------------------------------------------------------------
  // Records
  // ---------------------------------------------------------------------

  datatype Record = Record(recType: byte, id: nat, content: seq<byte>)

  /** -contentLength & 7. */
  function PaddingLength(n: nat): (p: nat)
    ensures p < 8 && (n + p) % 8 == 0
  {
    (8 - n % 8) % 8
  }

  function U16(high: int, low: int): (n: int)
  {
    high * 256 + low
  }

  function Zeros(n: nat): (z: seq<byte>)
    ensures |z| == n
  {
    if n == 0 then [] else [0] + Zeros(n - 1)
  }

  /** header.init and its big-endian form; ContentLength is a uint16. */
  function HeaderBytes(t: byte, id: nat, n: nat): (h: seq<byte>)
    requires id < 0x1_0000
    ensures |h| == HEADER_LEN
  {
    var len := n % 0x1_0000;
    [1, t, id / 256, id % 256, len / 256, len % 256, PaddingLength(n), 0]
  }

  /** conn.writeRecord. */
  function WriteRecord(t: byte, id: nat, b: seq<byte>): (w: seq<byte>)
    requires id < 0x1_0000
    ensures |w| == HEADER_LEN + |b| + PaddingLength(|b|)
  {
    HeaderBytes(t, id, |b|) + b + Zeros(PaddingLength(|b|))
  }

  datatype ReadResult = Read(rec: Record, rest: seq<byte>) | ReadError

  /** record.read. */
  function ReadRecord(w: seq<byte>): (r: ReadResult)
    ensures r.Read? ==> |r.rest| < |w|
  {
    if |w| < HEADER_LEN || w[0] != 1 then ReadError
    else
      var n := U16(w[4], w[5]);
      if |w| < HEADER_LEN + n + w[6] then ReadError
      else Read(Record(w[1], U16(w[2], w[3]), w[HEADER_LEN..HEADER_LEN + n]), w[HEADER_LEN + n + w[6]..])
  }

  /** The numbers a reader finds in a header. */
  predicate HeaderSays(h: seq<byte>, t: byte, id: nat, n: nat, pad: nat)
  {
    |h| == HEADER_LEN && h[0] == 1 && h[1] == t && U16(h[2], h[3]) == id && U16(h[4], h[5]) == n && h[6] == pad
  }

  lemma HeaderFields(t: byte, id: nat, n: nat)
    requires id < 0x1_0000
    ensures HeaderSays(HeaderBytes(t, id, n), t, id, n % 0x1_0000, PaddingLength(n))
  {
  }

  /** Where a reader finds the parts of a record. */
  lemma RecordParts(h: seq<byte>, b: seq<byte>, z: seq<byte>, rest: seq<byte>, len: nat)
    requires |h| == HEADER_LEN && len <= |b|
    ensures var w := h + b + z + rest;
            && |w| == HEADER_LEN + |b| + |z| + |rest|
            && w[0] == h[0] && w[1] == h[1] && w[2] == h[2] && w[3] == h[3] && w[4] == h[4] && w[5] == h[5] && w[6] == h[6]
            && w[HEADER_LEN..HEADER_LEN + len] == b[..len]
            && w[HEADER_LEN + |b| + |z|..] == rest
  {
  }

  lemma ReadParts(h: seq<byte>, t: byte, id: nat, b: seq<byte>, z: seq<byte>, rest: seq<byte>)
    requires HeaderSays(h, t, id, |b|, |z|)
    ensures ReadRecord(h + b + z + rest) == Read(Record(t, id, b), rest)
  {
    RecordParts(h, b, z, rest, |b|);
    assert b[..|b|] == b;
  }

  lemma RecordReads(t: byte, id: nat, b: seq<byte>, rest: seq<byte>)
    requires id < 0x1_0000 && |b| <= MAX_WRITE
    ensures ReadRecord(WriteRecord(t, id, b) + rest) == Read(Record(t, id, b), rest)
  {
    HeaderFields(t, id, |b|);
    Below(|b|);
    ReadParts(HeaderBytes(t, id, |b|), t, id, b, Zeros(PaddingLength(|b|)), rest);
  }

  lemma Below(n: nat)
    requires n <= MAX_WRITE
    ensures n % 0x1_0000 == n
  {
  }

  lemma RecordLength(t: byte, id: nat, b: seq<byte>, rest: seq<byte>)
    requires id < 0x1_0000
    ensures var r := ReadRecord(WriteRecord(t, id, b) + rest); r.Read? ==> |r.rec.content| == |b| % 0x1_0000
  {
    HeaderFields(t, id, |b|);
    RecordParts(HeaderBytes(t, id, |b|), b, Zeros(PaddingLength(|b|)), rest, 0);
  }

  /** A record is read back, with the reader at the next byte, exactly when its
      content fits the 16-bit length. */
  lemma RecordRoundTrip(t: byte, id: nat, b: seq<byte>, rest: seq<byte>)
    requires id < 0x1_0000
    ensures ReadRecord(WriteRecord(t, id, b) + rest) == Read(Record(t, id, b), rest) <==> |b| <= MAX_WRITE
  {
    if |b| <= MAX_WRITE {
      RecordReads(t, id, b, rest);
    } else {
      RecordLength(t, id, b, rest);
    }
  }

  predicate GoodRecord(r: Record)
  {
    r.id < 0x1_0000 && |r.content| <= MAX_WRITE
  }

  function RecordsWire(rs: seq<Record>): (w: seq<byte>)
    requires forall i :: 0 <= i < |rs| ==> GoodRecord(rs[i])
  {
    if rs == [] then [] else
      assert GoodRecord(rs[0]);
      WriteRecord(rs[0].recType, rs[0].id, rs[0].content) + RecordsWire(rs[1..])
  }

  /** child.serve's read loop: records until one cannot be read. */
  function ReadRecords(w: seq<byte>): (rs: seq<Record>)
    decreases |w|
  {
    var r := ReadRecord(w);
    if r.ReadError? then [] else [r.rec] + ReadRecords(r.rest)
  }

  /** A connection's records are read back one after another. */
  lemma {:induction false} RecordsRoundTrip(rs: seq<Record>)
    requires forall i :: 0 <= i < |rs| ==> GoodRecord(rs[i])
    ensures ReadRecords(RecordsWire(rs)) == rs
  {
    if rs != [] {
      RecordsRoundTrip(rs[1..]);
      RecordRoundTrip(rs[0].recType, rs[0].id, rs[0].content, RecordsWire(rs[1..]));
    }
  }

  // ---------------------------------------------------------------------
  // Streams
  // ---------------------------------------------------------------------

  function Join(pieces: seq<seq<byte>>): (r: seq<byte>)
  {
    if pieces == [] then [] else pieces[0] + Join(pieces[1..])
  }

  function Contents(rs: seq<Record>): (r: seq<byte>)
  {
    if rs == [] then [] else rs[0].content + Contents(rs[1..])
  }

  lemma {:induction false} ContentsAppend(rs: seq<Record>, r: Record)
    ensures Contents(rs + [r]) == Contents(rs) + r.content
  {
    if rs == [] {
      assert rs + [r] == [r] && [r][1..] == [];
    } else {
      ContentsAppend(rs[1..], r);
      assert (rs + [r])[1..] == rs[1..] + [r];
      Assoc(rs[0].content, Contents(rs[1..]), r.content);
    }
  }

  /** Full records of one stream. */
  predicate StreamRecord(r: Record, t: byte, id: nat)
  {
    r.recType == t && r.id == id && 0 < |r.content| <= MAX_WRITE
  }

  class StreamWriter {
    const recType: byte
    const reqId: nat
    var sent: seq<Record>

    constructor (t: byte, id: nat)
      requires id < 0x1_0000
      ensures recType == t && reqId == id && sent == []
    {
      recType, reqId, sent := t, id, [];
    }

    /** Any byte string goes out in full, cut into non-empty records. */
    method Write(data: seq<byte>) returns (n: nat)
      modifies this
      ensures n == |data| && |old(sent)| <= |sent| && sent[..|old(sent)|] == old(sent)
      ensures Contents(sent) == Contents(old(sent)) + data
      ensures forall i :: |old(sent)| <= i < |sent| ==> StreamRecord(sent[i], recType, reqId)
    {
      n := 0;
      var p := data;
      while |p| > 0
        invariant n + |p| == |data| && data[n..] == p
        invariant |old(sent)| <= |sent| && sent[..|old(sent)|] == old(sent)
        invariant Contents(sent) == Contents(old(sent)) + data[..n]
        invariant forall i :: |old(sent)| <= i < |sent| ==> StreamRecord(sent[i], recType, reqId)
        decreases |p|
      {
        var m := if |p| > MAX_WRITE then MAX_WRITE else |p|;
        var r := Record(recType, reqId, p[..m]);
        ContentsAppend(sent, r);
        Assoc(Contents(old(sent)), data[..n], p[..m]);
        assert data[..n] + p[..m] == data[..n + m];
        sent := sent + [r];
        n := n + m;
        p := p[m..];
      }
      assert data[..n] == data;
    }

    /** The empty record that ends the stream. */
    method Close()
      modifies this
      ensures sent == old(sent) + [Record(recType, reqId, [])]
    {
      sent := sent + [Record(recType, reqId, [])];
    }
  }

  /** A stream written and closed: records of at most 65535 bytes whose contents
      make up the data, exactly one of them empty, and that one last. */
  method SendStream(t: byte, id: nat, data: seq<byte>) returns (rs: seq<Record>)
    requires id < 0x1_0000
    ensures |rs| > 0 && Contents(rs) == data
    ensures forall i :: 0 <= i < |rs| - 1 ==> StreamRecord(rs[i], t, id)
    ensures rs[|rs| - 1] == Record(t, id, [])
  {
    var w := new StreamWriter(t, id);
    var _ := w.Write(data);
    ContentsAppend(w.sent, Record(t, id, []));
    assert Contents(w.sent) == [] + data;
    w.Close();
    rs := w.sent;
    assert data + [] == data;
  }

  /** On the wire every record is a whole number of eight-byte units. */
  lemma RecordAligned(t: byte, id: nat, b: seq<byte>)
    requires id < 0x1_0000
    ensures |WriteRecord(t, id, b)| % 8 == 0
  {
    var n := |b| + PaddingLength(|b|);
    assert |WriteRecord(t, id, b)| == 8 + n;
  }

  // ---------------------------------------------------------------------
  // Name-value pairs
  // ---------------------------------------------------------------------

  const SIZE_LIMIT := 0x8000_0000

  function BigEndian(n: nat): (b: seq<byte>)
    requires n < 2 * SIZE_LIMIT
    ensures |b| == 4
  {
    [n / 0x100_0000, n / 0x1_0000 % 256, n / 256 % 256, n % 256]
  }

  /** encodeSize of a length below 2^31; longer ones take the high bit as is. */
  function EncodeSize(n: nat): (b: seq<byte>)
    requires n < 2 * SIZE_LIMIT
    ensures |b| == 1 || |b| == 4
  {
    if n > 127 then BigEndian(if n < SIZE_LIMIT then n + SIZE_LIMIT else n) else [n]
  }

  /** Four bytes without their high bit. */
  function SizeOf(a: int, b: int, c: int, d: int): (n: int)
  {
    U16(a - 128, b) * 0x1_0000 + U16(c, d)
  }

  /** readSize: the size and how many bytes it took, 0 when there are too few. */
  function ReadSize(s: seq<byte>): (r: (nat, nat))
    ensures r.1 <= |s| && (r.1 == 0 || r.1 == 1 || r.1 == 4)
  {
    if |s| == 0 then (0, 0)
    else if s[0] < 128 then (s[0], 1)
    else if |s| < 4 then (0, 0)
    else (SizeOf(s[0], s[1], s[2], s[3]), 4)
  }

  lemma BytesOf(n: nat)
    requires n < SIZE_LIMIT
    ensures var b := BigEndian(n + SIZE_LIMIT);
            b[0] >= 128 && SizeOf(b[0], b[1], b[2], b[3]) == n
  {
    var m := n + SIZE_LIMIT;
    assert m / 0x1_0000 == (m / 0x100_0000) * 256 + m / 0x1_0000 % 256;
    assert m == (m / 0x1_0000) * 0x1_0000 + m % 0x1_0000;
    assert m % 0x1_0000 == (m / 256 % 256) * 256 + m % 256;
  }

  /** Sizes are self-delimiting under any suffix. */
  lemma SizeRoundTrip(n: nat, rest: seq<byte>)
    requires n < SIZE_LIMIT
    ensures ReadSize(EncodeSize(n) + rest) == (n, |EncodeSize(n)|)
  {
    var s := EncodeSize(n) + rest;
    if n > 127 {
      BytesOf(n);
      var b := BigEndian(n + SIZE_LIMIT);
      assert s[0] == b[0] && s[1] == b[1] && s[2] == b[2] && s[3] == b[3];
    }
  }

  datatype Pair = Pair(key: seq<byte>, val: seq<byte>)

  type Params = map<seq<byte>, seq<byte>>

  predicate GoodPair(p: Pair)
  {
    |p.key| < SIZE_LIMIT && |p.val| < SIZE_LIMIT
  }

  predicate GoodPairs(ps: seq<Pair>)
  {
    forall i :: 0 <= i < |ps| ==> GoodPair(ps[i])
  }

  function EncodeSizes(p: Pair): (w: seq<byte>)
    requires GoodPair(p)
  {
    EncodeSize(|p.key|) + EncodeSize(|p.val|)
  }

  /** What writePairs sends for one entry of its map. */
  function EncodePair(p: Pair): (w: seq<byte>)
    requires GoodPair(p)
  {
    EncodeSizes(p) + (p.key + p.val)
  }

  function EncodePairs(ps: seq<Pair>): (w: seq<byte>)
    requires GoodPairs(ps)
  {
    if ps == [] then []
    else
      assert GoodPair(ps[0]);
      EncodePair(ps[0]) + EncodePairs(ps[1..])
  }

  /** The map that pairs stand for, a later one replacing an earlier. */
  function MapOf(ps: seq<Pair>, m: Params): (r: Params)
    decreases |ps|
  {
    if ps == [] then m else MapOf(ps[1..], m[ps[0].key := ps[0].val])
  }

  /** parseParams stops quietly at a size it cannot read, and panics when a key
      or value is longer than what is left. */
  datatype Parsed = Parsed(params: Params) | Panic

  /** One turn of the loop of parseParams. */
  datatype Cut = Short | Beyond | Cut(key: seq<byte>, val: seq<byte>, rest: seq<byte>)

  /** A key and a value off the front of the text. */
  function Slices(t: seq<byte>, keyLen: nat, valLen: nat): (c: Cut)
    ensures c.Cut? ==> |c.rest| <= |t|
  {
    if keyLen > |t| || valLen > |t| - keyLen then Beyond
    else Cut(t[..keyLen], t[keyLen..keyLen + valLen], t[keyLen + valLen..])
  }

  function CutPair(text: seq<byte>): (c: Cut)
    ensures c.Cut? ==> |c.rest| < |text|
  {
    var (keyLen, n) := ReadSize(text);
    if n == 0 then Short
    else
      var (valLen, k) := ReadSize(text[n..]);
      if k == 0 then Short else Slices(text[n + k..], keyLen, valLen)
  }

  function Parse(text: seq<byte>, m: Params): (r: Parsed)
    decreases |text|
  {
    if |text| == 0 then Parsed(m)
    else
      var c := CutPair(text);
      if c.Short? then Parsed(m) else if c.Beyond? then Panic else Parse(c.rest, m[c.key := c.val])
  }

  lemma SizesRead(p: Pair, rest: seq<byte>)
    requires GoodPair(p)
    ensures var w := EncodeSizes(p) + rest;
            var (keyLen, n) := ReadSize(w);
            && |w| > 0 && keyLen == |p.key| && n == |EncodeSize(|p.key|)| > 0
            && ReadSize(w[n..]) == (|p.val|, |EncodeSizes(p)| - n) && |EncodeSizes(p)| > n
            && w[|EncodeSizes(p)|..] == rest
  {
    var a, b := EncodeSize(|p.key|), EncodeSize(|p.val|);
    Assoc(a, b, rest);
    SizeRoundTrip(|p.key|, b + rest);
    SizeRoundTrip(|p.val|, rest);
    assert (a + (b + rest))[|a|..] == b + rest;
    assert (a + b + rest)[|a + b|..] == rest;
  }

  lemma SlicesExact(key: seq<byte>, val: seq<byte>, rest: seq<byte>)
    ensures Slices(key + val + rest, |key|, |val|) == Cut(key, val, rest)
  {
    var t := key + val + rest;
    assert t[..|key|] == key && t[|key|..|key| + |val|] == val && t[|key| + |val|..] == rest;
  }

  /** Sizes are followed by what they measure. */
  lemma CutSized(p: Pair, t: seq<byte>)
    requires GoodPair(p)
    ensures CutPair(EncodeSizes(p) + t) == Slices(t, |p.key|, |p.val|)
  {
    SizesRead(p, t);
    var w := EncodeSizes(p) + t;
    var n := ReadSize(w).1;
    assert w[n + ReadSize(w[n..]).1..] == t;
  }

  lemma PairParsed(p: Pair, rest: seq<byte>, m: Params)
    requires GoodPair(p)
    ensures Parse(EncodePair(p) + rest, m) == Parse(rest, m[p.key := p.val])
  {
    Assoc(EncodeSizes(p), p.key + p.val, rest);
    CutSized(p, p.key + p.val + rest);
    SlicesExact(p.key, p.val, rest);
  }

  /** Every list of pairs is read back, without slicing out of range. */
  lemma {:induction false} PairsRoundTrip(ps: seq<Pair>, rest: seq<byte>, m: Params)
    requires GoodPairs(ps)
    ensures Parse(EncodePairs(ps) + rest, m) == Parse(rest, MapOf(ps, m))
    decreases |ps|
  {
    if ps == [] {
      assert [] + rest == rest;
    } else {
      assert GoodPair(ps[0]);
      Assoc(EncodePair(ps[0]), EncodePairs(ps[1..]), rest);
      PairParsed(ps[0], EncodePairs(ps[1..]) + rest, m);
      PairsRoundTrip(ps[1..], rest, m[ps[0].key := ps[0].val]);
    }
  }

  /** Where a cut makes parseParams panic: an encoding cut after the sizes of a
      pair and before its end panics, a cut within the sizes does not. */
  lemma CutPanicsIff(ps: seq<Pair>, p: Pair, cut: nat)
    requires GoodPairs(ps) && GoodPair(p) && cut < |EncodePair(p)|
    ensures Parse(EncodePairs(ps) + EncodePair(p)[..cut], map[]).Panic? <==> cut >= |EncodeSizes(p)|
  {
    var tail := EncodePair(p)[..cut];
    PairsRoundTrip(ps, tail, map[]);
    if cut >= |EncodeSizes(p)| {
      var left := (p.key + p.val)[..cut - |EncodeSizes(p)|];
      assert tail == EncodeSizes(p) + left;
      CutSized(p, left);
    } else {
      CutSizes(p, cut);
      assert tail == EncodeSizes(p)[..cut];
    }
  }

  lemma CutSize(n: nat, cut: nat)
    requires n < SIZE_LIMIT && cut < |EncodeSize(n)|
    ensures ReadSize(EncodeSize(n)[..cut]).1 == 0
  {
    if n > 127 && cut > 0 {
      BytesOf(n);
    }
  }

  lemma CutSizes(p: Pair, cut: nat)
    requires GoodPair(p) && cut < |EncodeSizes(p)|
    ensures var t := EncodeSizes(p)[..cut];
            |t| == 0 || ReadSize(t).1 == 0 || ReadSize(t[ReadSize(t).1..]).1 == 0
  {
    var a, b := EncodeSize(|p.key|), EncodeSize(|p.val|);
    var t := (a + b)[..cut];
    if cut < |a| {
      assert t == a[..cut];
      CutSize(|p.key|, cut);
    } else {
      assert t == a + b[..cut - |a|];
      SizeRoundTrip(|p.key|, b[..cut - |a|]);
      assert t[|a|..] == b[..cut - |a|];
      CutSize(|p.val|, cut - |a|);
    }
  }

  /** A map listed in any order, as `range` does, is the map again. */
  lemma {:induction false} MapListed(ps: seq<Pair>, m: Params, base: Params)
    requires forall i, j :: 0 <= i < j < |ps| ==> ps[i].key != ps[j].key
    requires forall i :: 0 <= i < |ps| ==> ps[i].key in m && m[ps[i].key] == ps[i].val
    requires forall k :: k in m ==> k in base || exists i :: 0 <= i < |ps| && ps[i].key == k
    requires forall k :: k in base ==> k in m && m[k] == base[k]
    ensures MapOf(ps, base) == m
    decreases |ps|
  {
    if ps == [] {
      assert base.Keys == m.Keys;
    } else {
      var b := base[ps[0].key := ps[0].val];
      var rest := ps[1..];
      forall k | k in m ensures k in b || exists i :: 0 <= i < |rest| && rest[i].key == k {
        if k !in base {
          var i :| 0 <= i < |ps| && ps[i].key == k;
          assert i > 0 ==> rest[i - 1].key == k;
        }
      }
      MapListed(rest, m, b);
    }
  }

  // ---------------------------------------------------------------------
  // Parameters arriving in records (child.go)
  // ---------------------------------------------------------------------

  class Request {
    var params: Params
    var rawParams: seq<byte>

    constructor ()
      ensures params == map[] && rawParams == []
    {
      params, rawParams := map[], [];
    }

    /** parseParams; `panicked` stands for a slice out of range. */
    method ParseParams() returns (panicked: bool)
      modifies this
      ensures rawParams == []
      ensures Parse(old(rawParams), old(params)) == if panicked then Panic else Parsed(params)
    {
      var text := rawParams;
      rawParams := [];
      ghost var all := Parse(text, params);
      while |text| > 0
        invariant rawParams == [] && all == Parse(text, params)
        decreases |text|
      {
        var c := NextPair(text);
        if c.Short? {
          return false;
        }
        if c.Beyond? {
          return true;
        }
        text := c.rest;
        params := params[c.key := c.val];
      }
      return false;
    }
  }

  /** Two sizes, then a key and a value, off the front of the text. */
  method NextPair(start: seq<byte>) returns (c: Cut)
    ensures c == CutPair(start)
  {
    var text := start;
    var (keyLen, n) := ReadSize(text);
    if n == 0 {
      return Short;
    }
    text := text[n..];
    var (valLen, k) := ReadSize(text);
    if k == 0 {
      return Short;
    }
    assert text[k..] == start[n + k..];
    c := Slice(text[k..], keyLen, valLen);
  }

  method Slice(start: seq<byte>, keyLen: nat, valLen: nat) returns (c: Cut)
    ensures c == Slices(start, keyLen, valLen)
  {
    var text := start;
    if keyLen > |text| {
      return Beyond;
    }
    var key := text[..keyLen];
    text := text[keyLen..];
    if valLen > |text| {
      return Beyond;
    }
    var val := text[..valLen];
    text := text[valLen..];
    assert val == start[keyLen..keyLen + valLen] && text == start[keyLen + valLen..];
    return Cut(key, val, text);
  }

  /** A request being assembled, as a value. */
  datatype Assembly = Assembly(params: Params, raw: seq<byte>) | Crashed

  /** The params case of handleRecord for the request it belongs to. */
  function Assemble(a: Assembly, content: seq<byte>): (b: Assembly)
  {
    if a.Crashed? then a
    else if |content| > 0 then a.(raw := a.raw + content)
    else
      var r := Parse(a.raw, a.params);
      if r.Panic? then Crashed else Assembly(r.params, [])
  }

  function AssembleAll(a: Assembly, cs: seq<seq<byte>>): (b: Assembly)
    decreases |cs|
  {
    if cs == [] then a else AssembleAll(Assemble(a, cs[0]), cs[1..])
  }

  /** However the encoded pairs are cut into non-empty records, the request ends
      up with exactly their map, once the empty record arrives. */
  lemma {:induction false} SplitParams(cs: seq<seq<byte>>, done: seq<byte>, m: Params)
    requires forall i :: 0 <= i < |cs| ==> cs[i] != []
    ensures AssembleAll(Assembly(m, done), cs) == Assembly(m, done + Join(cs))
    decreases |cs|
  {
    if cs == [] {
      assert done + [] == done;
    } else {
      SplitParams(cs[1..], done + cs[0], m);
      Assoc(done, cs[0], Join(cs[1..]));
    }
  }

  lemma {:induction false} AssembleSplit(a: Assembly, cs: seq<seq<byte>>, c: seq<byte>)
    ensures AssembleAll(a, cs + [c]) == Assemble(AssembleAll(a, cs), c)
    decreases |cs|
  {
    if cs == [] {
      assert cs + [c] == [c] && [c][1..] == [];
    } else {
      AssembleSplit(Assemble(a, cs[0]), cs[1..], c);
      assert (cs + [c])[1..] == cs[1..] + [c];
    }
  }

  lemma ParamsRecovered(ps: seq<Pair>, cs: seq<seq<byte>>)
    requires GoodPairs(ps) && Join(cs) == EncodePairs(ps)
    requires forall i :: 0 <= i < |cs| ==> cs[i] != []
    ensures AssembleAll(Assembly(map[], []), cs + [[]]) == Assembly(MapOf(ps, map[]), [])
  {
    var w := EncodePairs(ps);
    SplitParams(cs, [], map[]);
    assert [] + Join(cs) == w;
    AssembleSplit(Assembly(map[], []), cs, []);
    PairsRoundTrip(ps, [], map[]);
    assert w + [] == w;
  }
}
