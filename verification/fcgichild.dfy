/** The FastCGI child: one connection that carries many requests, the records
    that feed them, and what takes the connection down (http/fcgi/child.go). */
module FcgiChild {
  import opened Text
  import opened Fcgi

  const ROLE_RESPONDER := 1

  /** A request in progress; `started` once its handler is running. */
  datatype InFlight = InFlight(params: Params, raw: seq<byte>, keepConn: bool, started: bool)

  function Held(q: InFlight): (a: Assembly)
  {
    Assembly(q.params, q.raw)
  }

  type Table = map<nat, InFlight>

  /** A connection that is closed, or a process that a panic has ended, handles
      no record any more. */
  datatype State = Running(requests: Table) | Closed | Died

  datatype Event = Rec(r: Record) | HandlerDone(id: nat)

  predicate KeepConn(content: seq<byte>)
    requires |content| == 8
  {
    content[2] % 2 == 1
  }

  /** handleRecord, for a record of a request that is in progress. */
  function HandleOwn(t: Table, r: Record): (s: State)
    requires r.id in t
  {
    var q := t[r.id];
    if r.recType == TYPE_BEGIN then Closed
    else if r.recType == TYPE_PARAMS then
      var a := Assemble(Held(q), r.content);
      if a.Crashed? then Died else Running(t[r.id := q.(params := a.params, raw := a.raw)])
    else if r.recType == TYPE_STDIN then Running(t[r.id := q.(started := true)])
    else if r.recType == TYPE_ABORT then if q.keepConn then Running(t - {r.id}) else Closed
    else Running(t)
  }

  /** handleRecord, for an id that is not in progress. */
  function HandleNew(t: Table, r: Record): (s: State)
    requires r.id !in t
  {
    if r.recType != TYPE_BEGIN then Running(t)
    else if |r.content| != 8 then Closed
    else if U16(r.content[0], r.content[1]) != ROLE_RESPONDER then Running(t)
    else Running(t[r.id := InFlight(map[], [], KeepConn(r.content), false)])
  }

  /** A record is read, or a handler returns and closes the connection unless the
      web server asked to keep it. */
  function Handle(s: State, e: Event): (u: State)
  {
    if !s.Running? then s
    else
      match e
      case Rec(r) => if r.id in s.requests then HandleOwn(s.requests, r) else HandleNew(s.requests, r)
      case HandlerDone(id) =>
        if id in s.requests && s.requests[id].started && !s.requests[id].keepConn then Closed else s
  }

  function HandleAll(s: State, es: seq<Event>): (u: State)
    decreases |es|
  {
    if es == [] then s else HandleAll(Handle(s, es[0]), es[1..])
  }

  // ---------------------------------------------------------------------
  // handleRecord on the child's own table
  // ---------------------------------------------------------------------

  datatype Outcome = Goes | Closes | Panics

  class Child {
    var requests: Table

    constructor ()
      ensures requests == map[]
    {
      requests := map[];
    }

    /** handleRecord: an error closes the connection. */
    method HandleRecord(rec: Record) returns (o: Outcome)
      modifies this
      ensures Handle(Running(old(requests)), Rec(rec))
           == if o.Goes? then Running(requests) else if o.Closes? then Closed else Died
    {
      var ok := rec.id in requests;
      if !ok && rec.recType != TYPE_BEGIN && rec.recType != TYPE_GET_VALUES {
        return Goes;
      }
      if ok && rec.recType == TYPE_BEGIN {
        return Closes;
      }
      if rec.recType == TYPE_BEGIN {
        if |rec.content| != 8 {
          return Closes;
        }
        if U16(rec.content[0], rec.content[1]) != ROLE_RESPONDER {
          return Goes;
        }
        requests := requests[rec.id := InFlight(map[], [], KeepConn(rec.content), false)];
      } else if rec.recType == TYPE_PARAMS {
        o := Feed(rec);
        return;
      } else if rec.recType == TYPE_STDIN {
        requests := requests[rec.id := requests[rec.id].(started := true)];
      } else if rec.recType == TYPE_ABORT {
        var keep := requests[rec.id].keepConn;
        requests := requests - {rec.id};
        if !keep {
          return Closes;
        }
      }
      return Goes;
    }

    /** The params case: buffer, and parse when the stream ends. */
    method Feed(rec: Record) returns (o: Outcome)
      requires rec.id in requests && rec.recType == TYPE_PARAMS
      modifies this
      ensures HandleOwn(old(requests), rec) == if o.Goes? then Running(requests) else Died
      ensures !o.Closes?
    {
      var q := requests[rec.id];
      if |rec.content| > 0 {
        requests := requests[rec.id := q.(raw := q.raw + rec.content)];
        return Goes;
      }
      var req := new Request();
      req.params, req.rawParams := q.params, q.raw;
      var panicked := req.ParseParams();
      if panicked {
        return Panics;
      }
      requests := requests[rec.id := q.(params := req.params, raw := [])];
      return Goes;
    }
  }

  // ---------------------------------------------------------------------
  // What takes a connection down
  // ---------------------------------------------------------------------

  /** A begin record that is malformed or repeats an id, the abort or the end of a
      request whose connection is not to be kept, and parameters cut short. */
  predicate Kills(t: Table, e: Event)
  {
    match e
    case Rec(r) =>
      || (r.recType == TYPE_BEGIN && (r.id in t || |r.content| != 8))
      || (r.recType == TYPE_ABORT && r.id in t && !t[r.id].keepConn)
      || (r.recType == TYPE_PARAMS && r.id in t && Assemble(Held(t[r.id]), r.content).Crashed?)
    case HandlerDone(id) => id in t && t[id].started && !t[id].keepConn
  }

  lemma KillsIff(t: Table, e: Event)
    ensures Handle(Running(t), e).Running? <==> !Kills(t, e)
  {
  }

  /** No event of the run takes the connection down. */
  predicate Orderly(t: Table, es: seq<Event>)
    decreases |es|
  {
    es == [] || (!Kills(t, es[0]) && (KillsIff(t, es[0]); Orderly(Handle(Running(t), es[0]).requests, es[1..])))
  }

  lemma {:induction false} DeadForGood(s: State, es: seq<Event>)
    requires !s.Running?
    ensures HandleAll(s, es) == s
    decreases |es|
  {
    if es != [] {
      DeadForGood(s, es[1..]);
    }
  }

  /** A connection lives through a run exactly if nothing in it kills. */
  lemma {:induction false} AliveIff(t: Table, es: seq<Event>)
    ensures HandleAll(Running(t), es).Running? <==> Orderly(t, es)
    decreases |es|
  {
    if es != [] {
      KillsIff(t, es[0]);
      var s := Handle(Running(t), es[0]);
      if s.Running? {
        AliveIff(s.requests, es[1..]);
      } else {
        DeadForGood(s, es[1..]);
      }
    }
  }

  // ---------------------------------------------------------------------
  // One request among others
  // ---------------------------------------------------------------------

  predicate IsOwn(e: Event, id: nat, t: byte)
  {
    e.Rec? && e.r.id == id && e.r.recType == t
  }

  /** The contents of one request's params records. */
  function Own(es: seq<Event>, id: nat): (cs: seq<seq<byte>>)
  {
    if es == [] then []
    else if IsOwn(es[0], id, TYPE_PARAMS) then [es[0].r.content] + Own(es[1..], id)
    else Own(es[1..], id)
  }

  predicate NotAborted(es: seq<Event>, id: nat)
  {
    forall e :: e in es ==> !IsOwn(e, id, TYPE_ABORT)
  }

  lemma OneEvent(t: Table, e: Event, id: nat)
    requires id in t && !Kills(t, e) && !IsOwn(e, id, TYPE_ABORT)
    ensures var s := Handle(Running(t), e);
            && s.Running? && id in s.requests
            && Held(s.requests[id])
               == if IsOwn(e, id, TYPE_PARAMS) then Assemble(Held(t[id]), e.r.content) else Held(t[id])
  {
    KillsIff(t, e);
  }

  /** On a connection that stays up, other requests' records make no difference. */
  lemma {:induction false} Multiplexed(t: Table, es: seq<Event>, id: nat)
    requires id in t && Orderly(t, es) && NotAborted(es, id)
    ensures var s := HandleAll(Running(t), es);
            s.Running? && id in s.requests && Held(s.requests[id]) == AssembleAll(Held(t[id]), Own(es, id))
    decreases |es|
  {
    if es != [] {
      OneEvent(t, es[0], id);
      Multiplexed(Handle(Running(t), es[0]).requests, es[1..], id);
      if IsOwn(es[0], id, TYPE_PARAMS) {
        Unconsed(es[0].r.content, Own(es[1..], id));
      }
    }
  }

  function Recs(rs: seq<Record>): (es: seq<Event>)
    ensures |es| == |rs|
  {
    if rs == [] then [] else [Rec(rs[0])] + Recs(rs[1..])
  }

  predicate Recovered(s: State, id: nat, m: Params)
  {
    s.Running? && id in s.requests && Held(s.requests[id]) == Assembly(m, [])
  }

  /** A request whose own params records cut up the encoding of `ps` and end with
      the empty one, and that is not aborted, has exactly that map at the end of a
      run, if and only if nothing in the run takes the connection down. */
  lemma ParamsRecoveredIff(t: Table, es: seq<Event>, id: nat, ps: seq<Pair>, cs: seq<seq<byte>>)
    requires id in t && Held(t[id]) == Assembly(map[], []) && NotAborted(es, id)
    requires GoodPairs(ps) && Join(cs) == EncodePairs(ps) && forall i :: 0 <= i < |cs| ==> cs[i] != []
    requires Own(es, id) == cs + [[]]
    ensures Recovered(HandleAll(Running(t), es), id, MapOf(ps, map[])) <==> Orderly(t, es)
  {
    AliveIff(t, es);
    if Orderly(t, es) {
      Multiplexed(t, es, id);
      ParamsRecovered(ps, cs);
    }
  }

  /** The same from bytes on the wire. */
  lemma WireToParams(rs: seq<Record>, t: Table, id: nat, ps: seq<Pair>, cs: seq<seq<byte>>)
    requires forall i :: 0 <= i < |rs| ==> GoodRecord(rs[i])
    requires id in t && Held(t[id]) == Assembly(map[], []) && NotAborted(Recs(rs), id)
    requires GoodPairs(ps) && Join(cs) == EncodePairs(ps) && forall i :: 0 <= i < |cs| ==> cs[i] != []
    requires Own(Recs(rs), id) == cs + [[]]
    ensures Recovered(HandleAll(Running(t), Recs(ReadRecords(RecordsWire(rs)))), id, MapOf(ps, map[]))
            <==> Orderly(t, Recs(rs))
  {
    RecordsRoundTrip(rs);
    ParamsRecoveredIff(t, Recs(rs), id, ps, cs);
  }

  // ---------------------------------------------------------------------
  // One request takes another down
  // ---------------------------------------------------------------------

  /** Request `id` is sent its parameters up to `cut` bytes into the last pair,
      and then the end of them. */
  function CutShort(id: nat, ps: seq<Pair>, p: Pair, cut: nat): (es: seq<Event>)
    requires GoodPairs(ps) && GoodPair(p) && cut < |EncodePair(p)|
  {
    [Rec(Record(TYPE_PARAMS, id, EncodePairs(ps) + EncodePair(p)[..cut])), Rec(Record(TYPE_PARAMS, id, []))]
  }

  /** Every request of the connection is lost, exactly if the cut is after the
      sizes of the last pair. */
  lemma CutTakesAllDownIff(t: Table, id: nat, ps: seq<Pair>, p: Pair, cut: nat)
    requires id in t && Held(t[id]) == Assembly(map[], [])
    requires GoodPairs(ps) && GoodPair(p) && cut < |EncodePair(p)| && |EncodePairs(ps) + EncodePair(p)[..cut]| > 0
    ensures HandleAll(Running(t), CutShort(id, ps, p, cut)) == Died <==> cut >= |EncodeSizes(p)|
  {
    var raw := EncodePairs(ps) + EncodePair(p)[..cut];
    var es := CutShort(id, ps, p, cut);
    CutPanicsIff(ps, p, cut);
    var s := Handle(Running(t), es[0]);
    assert [] + raw == raw;
    assert s == Running(t[id := t[id].(raw := raw)]);
    var u := Handle(s, es[1]);
    assert es[1..][0] == es[1] && es[1..][1..] == [];
    assert HandleAll(Running(t), es) == HandleAll(s, es[1..]) == HandleAll(u, []);
  }

  /** Whatever arrives afterwards, the other request never gets its parameters. */
  lemma OtherRequestLost(t: Table, id: nat, ps: seq<Pair>, p: Pair, cut: nat, other: nat, m: Params, es: seq<Event>)
    requires id in t && other in t && other != id && Held(t[id]) == Assembly(map[], [])
    requires GoodPairs(ps) && GoodPair(p) && |EncodeSizes(p)| <= cut < |EncodePair(p)|
    ensures !Recovered(HandleAll(HandleAll(Running(t), CutShort(id, ps, p, cut)), es), other, m)
  {
    CutTakesAllDownIff(t, id, ps, p, cut);
    DeadForGood(Died, es);
  }

  // ---------------------------------------------------------------------
  // A whole map, from the writer to the child
  // ---------------------------------------------------------------------

  /** A map as `range` goes through it: in any order. */
  method ListPairs(m: Params) returns (ps: seq<Pair>)
    requires forall k :: k in m ==> |k| < SIZE_LIMIT && |m[k]| < SIZE_LIMIT
    ensures GoodPairs(ps) && MapOf(ps, map[]) == m
  {
    ps := [];
    var left := m.Keys;
    while left != {}
      invariant left <= m.Keys
      invariant forall i, j :: 0 <= i < j < |ps| ==> ps[i].key != ps[j].key
      invariant forall i :: 0 <= i < |ps| ==> ps[i].key in m && ps[i].key !in left && m[ps[i].key] == ps[i].val
      invariant forall k :: k in m ==> k in left || exists i :: 0 <= i < |ps| && ps[i].key == k
      decreases |left|
    {
      var k :| k in left;
      ghost var was := ps;
      ps, left := ps + [Pair(k, m[k])], left - {k};
      assert ps[|was|].key == k;
      forall j | j in m && j !in left ensures exists i :: 0 <= i < |ps| && ps[i].key == j {
        if j != k {
          var i :| 0 <= i < |was| && was[i].key == j;
          assert ps[i].key == j;
        }
      }
    }
    MapListed(ps, m, map[]);
  }

  /** Records of one stream of parameters, each but the last non-empty. */
  lemma {:induction false} StreamIsOwn(rs: seq<Record>, id: nat)
    requires forall i :: 0 <= i < |rs| ==> rs[i].recType == TYPE_PARAMS && rs[i].id == id
    ensures Join(Own(Recs(rs), id)) == Contents(rs) && |Own(Recs(rs), id)| == |rs| && NotAborted(Recs(rs), id)
    ensures forall i :: 0 <= i < |rs| ==> Own(Recs(rs), id)[i] == rs[i].content
  {
    if rs != [] {
      StreamIsOwn(rs[1..], id);
      Unconsed(Rec(rs[0]), Recs(rs[1..]));
      Unconsed(rs[0].content, Own(Recs(rs[1..]), id));
    }
  }

  /** Parameters only accumulate: nothing before the last record can kill. */
  lemma {:induction false} StreamIsOrderly(t: Table, rs: seq<Record>, id: nat)
    requires id in t && rs != []
    requires forall i :: 0 <= i < |rs| ==> rs[i].recType == TYPE_PARAMS && rs[i].id == id
    requires forall i :: 0 <= i < |rs| - 1 ==> rs[i].content != []
    requires rs[|rs| - 1].content == [] && Parse(t[id].raw + Contents(rs), t[id].params).Parsed?
    ensures Orderly(t, Recs(rs))
    decreases |rs|
  {
    var a := t[id];
    Unconsed(Rec(rs[0]), Recs(rs[1..]));
    if |rs| == 1 {
      assert Contents(rs) == [] && a.raw + [] == a.raw;
      assert Recs(rs)[1..] == [];
    } else {
      var u := t[id := a.(raw := a.raw + rs[0].content)];
      assert rs[0].content != [];
      assert Handle(Running(t), Rec(rs[0])) == Running(u);
      Assoc(a.raw, rs[0].content, Contents(rs[1..]));
      StreamIsOrderly(u, rs[1..], id);
    }
  }

  /** For every map: what writePairs sends, whatever the order of the entries, is
      the map the child ends up with. */
  method MapRoundTrip(m: Params, id: nat, keepConn: bool) returns (wire: seq<byte>)
    requires id < 0x1_0000 && forall k :: k in m ==> |k| < SIZE_LIMIT && |m[k]| < SIZE_LIMIT
    ensures var t := map[id := InFlight(map[], [], keepConn, false)];
            Recovered(HandleAll(Running(t), Recs(ReadRecords(wire))), id, m)
  {
    ghost var t := map[id := InFlight(map[], [], keepConn, false)];
    var ps := ListPairs(m);
    var rs := SendStream(TYPE_PARAMS, id, EncodePairs(ps));
    forall i | 0 <= i < |rs| ensures GoodRecord(rs[i]) {
      assert i < |rs| - 1 ==> StreamRecord(rs[i], TYPE_PARAMS, id);
    }
    wire := RecordsWire(rs);
    MapStream(rs, t, id, ps);
  }

  /** A stream: non-empty records of one request, and an empty one. */
  predicate ParamStream(rs: seq<Record>, id: nat)
  {
    && rs != [] && rs[|rs| - 1] == Record(TYPE_PARAMS, id, [])
    && forall i :: 0 <= i < |rs| - 1 ==> StreamRecord(rs[i], TYPE_PARAMS, id)
  }

  lemma StreamPieces(rs: seq<Record>, id: nat) returns (cs: seq<seq<byte>>)
    requires ParamStream(rs, id)
    ensures Own(Recs(rs), id) == cs + [[]] && Join(cs) == Contents(rs) && NotAborted(Recs(rs), id)
    ensures forall i :: 0 <= i < |cs| ==> cs[i] != []
  {
    forall i | 0 <= i < |rs| ensures rs[i].recType == TYPE_PARAMS && rs[i].id == id {
      assert i < |rs| - 1 ==> StreamRecord(rs[i], TYPE_PARAMS, id);
    }
    StreamIsOwn(rs, id);
    var own := Own(Recs(rs), id);
    cs := own[..|own| - 1];
    assert own == cs + [[]];
    forall i | 0 <= i < |cs| ensures cs[i] != [] {
      assert StreamRecord(rs[i], TYPE_PARAMS, id) && cs[i] == own[i] == rs[i].content;
    }
    JoinLast(cs);
  }

  lemma PairsParse(ps: seq<Pair>, w: seq<byte>)
    requires GoodPairs(ps) && w == EncodePairs(ps)
    ensures Parse([] + w, map[]).Parsed?
  {
    PairsRoundTrip(ps, [], map[]);
    assert EncodePairs(ps) + [] == [] + w;
  }

  lemma MapOrderly(rs: seq<Record>, t: Table, id: nat, ps: seq<Pair>)
    requires id in t && Held(t[id]) == Assembly(map[], []) && GoodPairs(ps)
    requires ParamStream(rs, id) && Contents(rs) == EncodePairs(ps)
    ensures Orderly(t, Recs(rs))
  {
    PairsParse(ps, Contents(rs));
    forall i | 0 <= i < |rs|
      ensures rs[i].recType == TYPE_PARAMS && rs[i].id == id && (i < |rs| - 1 ==> rs[i].content != [])
    {
      assert i < |rs| - 1 ==> StreamRecord(rs[i], TYPE_PARAMS, id);
    }
    StreamIsOrderly(t, rs, id);
  }

  lemma MapStream(rs: seq<Record>, t: Table, id: nat, ps: seq<Pair>)
    requires id in t && Held(t[id]) == Assembly(map[], []) && GoodPairs(ps)
    requires ParamStream(rs, id) && Contents(rs) == EncodePairs(ps)
    requires forall i :: 0 <= i < |rs| ==> GoodRecord(rs[i])
    ensures Recovered(HandleAll(Running(t), Recs(ReadRecords(RecordsWire(rs)))), id, MapOf(ps, map[]))
  {
    var cs := StreamPieces(rs, id);
    MapOrderly(rs, t, id, ps);
    WireToParams(rs, t, id, ps, cs);
  }

  lemma {:induction false} JoinLast(cs: seq<seq<byte>>)
    ensures Join(cs + [[]]) == Join(cs)
  {
    if cs == [] {
      assert cs + [[]] == [[]] && Join([[]]) == [] + Join([]);
    } else {
      JoinLast(cs[1..]);
      assert (cs + [[]])[1..] == cs[1..] + [[]];
    }
  }
}
