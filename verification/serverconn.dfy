/** ServerConn: requests read and responses written by any number of goroutines
    over one pipelined connection (section 8.1.2.2 of RFC 2616), as interleaved
    steps. A request is named by the pipeline id of the Read that returned it. */
module ServerConn {
  /** Where a goroutine stands inside Read or Write. */
  datatype Pc =
    | ReadStart(id: nat)            // in StartRequest
    | ReadCheck(id: nat)            // its turn to read; about to lock
    | ReadDrain(id: nat)            // closing the previous body
    | ReadParse(id: nat)            // in http.ReadRequest
    | ReadEnd(id: nat, got: bool)   // about to EndRequest
    | ReadSkip(id: nat)             // no request: in StartResponse
    | ReadSkipEnd(id: nat)          // about to EndResponse
    | ReadRemember(id: nat)         // about to enter the request in pipereq
    | WriteWait(id: nat)            // in StartResponse
    | WriteCheck(id: nat)           // its turn to write; about to lock
    | WriteSend(id: nat)            // in resp.Write
    | WriteEnd(id: nat)             // about to EndResponse

  /** The fields of ServerConn, the two turnstiles of its Pipeline, and the
      goroutines; `taken` and `wire` log the requests read and the requests
      whose responses were sent. */
  datatype State = State(
    re: bool, we: bool, open: bool, lastbody: bool, nread: int, nwritten: int, pipereq: map<nat, nat>,
    nextId: nat, reqTurn: nat, respTurn: nat, procs: map<nat, Pc>,
    taken: seq<nat>, wire: seq<nat>)

  const INIT := State(false, false, true, false, 0, 0, map[], 0, 0, 0, map[], [], [])

  datatype Action =
    | CallRead(p: nat)
    | TakeRequestTurn(p: nat)
    | CheckRead(p: nat)
    | DrainBody(p: nat, ok: bool)
    | ParseRequest(p: nat, ok: bool, last: bool)
    | EndRequest(p: nat)
    | TakeSkipTurn(p: nat)
    | EndSkip(p: nat)
    | Remember(p: nat)
    | CallWrite(p: nat, req: nat)
    | TakeResponseTurn(p: nat)
    | CheckWrite(p: nat, last: bool)
    | SendResponse(p: nat, ok: bool)
    | EndResponse(p: nat)
    | Hijack

  /** A step can be taken: the goroutine is there, and a turnstile lets it in. */
  predicate Enabled(s: State, a: Action)
  {
    match a
    case CallRead(p) => p !in s.procs
    case CallWrite(p, _) => p !in s.procs
    case Hijack => true
    case _ =>
      a.p in s.procs &&
      var c := s.procs[a.p];
      match a
      case TakeRequestTurn(_) => c.ReadStart? && s.reqTurn == c.id
      case CheckRead(_) => c.ReadCheck?
      case DrainBody(_, _) => c.ReadDrain?
      case ParseRequest(_, _, _) => c.ReadParse?
      case EndRequest(_) => c.ReadEnd?
      case TakeSkipTurn(_) => c.ReadSkip? && s.respTurn == c.id
      case EndSkip(_) => c.ReadSkipEnd?
      case Remember(_) => c.ReadRemember?
      case TakeResponseTurn(_) => c.WriteWait? && s.respTurn == c.id
      case CheckWrite(_, _) => c.WriteCheck?
      case SendResponse(_, _) => c.WriteSend?
      case EndResponse(_) => c.WriteEnd?
      case _ => false
  }

  function Moved(s: State, p: nat, c: Pc): (t: State)
  {
    s.(procs := s.procs[p := c])
  }

  function Returned(s: State, p: nat): (t: State)
  {
    s.(procs := s.procs - {p})
  }

  function Next(s: State, a: Action): (t: State)
    requires Enabled(s, a)
  {
    match a
    case CallRead(p) => Moved(s, p, ReadStart(s.nextId)).(nextId := s.nextId + 1)
    case TakeRequestTurn(p) => Moved(s, p, ReadCheck(s.procs[p].id))
    case CheckRead(p) =>
      if s.we || s.re || !s.open then Moved(s, p, ReadEnd(s.procs[p].id, false))
      else Moved(s, p, if s.lastbody then ReadDrain(s.procs[p].id) else ReadParse(s.procs[p].id)).(lastbody := false)
    case DrainBody(p, ok) =>
      if ok then Moved(s, p, ReadParse(s.procs[p].id))
      else Moved(s, p, ReadEnd(s.procs[p].id, false)).(re := true)
    case ParseRequest(p, ok, last) =>
      if !ok then Moved(s, p, ReadEnd(s.procs[p].id, false)).(re := true)
      else Moved(s, p, ReadEnd(s.procs[p].id, true)).(
        lastbody := true, nread := s.nread + 1, re := s.re || last, taken := s.taken + [s.procs[p].id])
    case EndRequest(p) =>
      Moved(s, p, if s.procs[p].got then ReadRemember(s.procs[p].id) else ReadSkip(s.procs[p].id)).(reqTurn := s.reqTurn + 1)
    case TakeSkipTurn(p) => Moved(s, p, ReadSkipEnd(s.procs[p].id))
    case EndSkip(p) => Returned(s, p).(respTurn := s.respTurn + 1)
    case Remember(p) => Returned(s, p).(pipereq := s.pipereq[s.procs[p].id := s.procs[p].id])
    case CallWrite(p, req) =>
      if req !in s.pipereq then s
      else Moved(s, p, WriteWait(s.pipereq[req])).(pipereq := s.pipereq - {req})
    case TakeResponseTurn(p) => Moved(s, p, WriteCheck(s.procs[p].id))
    case CheckWrite(p, last) =>
      if s.we || !s.open then Moved(s, p, WriteEnd(s.procs[p].id))
      else if s.nread <= s.nwritten then Moved(s, p, WriteEnd(s.procs[p].id))
      else Moved(s, p, WriteSend(s.procs[p].id)).(re := s.re || last)
    case SendResponse(p, ok) =>
      if !ok then Moved(s, p, WriteEnd(s.procs[p].id)).(we := true)
      else Moved(s, p, WriteEnd(s.procs[p].id)).(nwritten := s.nwritten + 1, wire := s.wire + [s.procs[p].id])
    case EndResponse(p) => Returned(s, p).(respTurn := s.respTurn + 1)
    case Hijack => s.(open := false)
  }

  // ---------------------------------------------------------------------
  // The invariant
  // ---------------------------------------------------------------------

  /** Every id is in one place at a time. */
  predicate Separate(s: State)
  {
    && (forall p, q :: p in s.procs && q in s.procs && p != q ==> s.procs[p].id != s.procs[q].id)
    && (forall p, r :: p in s.procs && r in s.pipereq ==> s.procs[p].id != r)
    && (forall r :: r in s.pipereq ==> s.pipereq[r] == r)
  }

  /** The part of Read between StartRequest and EndRequest. */
  predicate HasRequestTurn(c: Pc)
  {
    c.ReadCheck? || c.ReadDrain? || c.ReadParse? || c.ReadEnd?
  }

  predicate HasResponseTurn(c: Pc)
  {
    c.ReadSkipEnd? || c.WriteCheck? || c.WriteSend? || c.WriteEnd?
  }

  /** The request of this goroutine was read. */
  predicate HoldsRequest(c: Pc)
  {
    c.ReadRemember? || c.WriteWait? || c.WriteCheck? || c.WriteSend? || c.WriteEnd? || (c.ReadEnd? && c.got)
  }

  /** One goroutine against the turnstiles and the logs. */
  predicate Placed(s: State, c: Pc)
  {
    && c.id < s.nextId
    && (HasRequestTurn(c) ==> c.id == s.reqTurn)
    && (c.ReadStart? ==> c.id >= s.reqTurn)
    && (!HasRequestTurn(c) && !c.ReadStart? ==> c.id < s.reqTurn)
    && (HasResponseTurn(c) ==> c.id == s.respTurn)
    && (!HasResponseTurn(c) ==> c.id >= s.respTurn)
    && (HoldsRequest(c) <==> c.id in s.taken)
    && (!c.WriteEnd? ==> c.id !in s.wire)
    && (c.WriteEnd? ==> c.id in s.wire || s.we || !s.open)
    && (c.WriteSend? ==> |s.wire| < |s.taken| && s.taken[|s.wire|] == c.id)
  }

  predicate Logged(s: State)
  {
    && s.nread == |s.taken| && s.nwritten == |s.wire|
    && (forall i, j :: 0 <= i < j < |s.taken| ==> s.taken[i] < s.taken[j])
    && (forall i :: 0 <= i < |s.taken| ==> s.taken[i] < s.nextId && s.taken[i] <= s.reqTurn)
    && s.wire <= s.taken
    && (!s.we && s.open ==> forall i :: 0 <= i < |s.taken| && s.taken[i] < s.respTurn ==> s.taken[i] in s.wire)
  }

  predicate Inv(s: State)
  {
    && Separate(s) && Logged(s)
    && (forall p :: p in s.procs ==> Placed(s, s.procs[p]))
    && (forall r :: r in s.pipereq ==> s.respTurn <= r < s.reqTurn && r in s.taken && r !in s.wire)
    && s.reqTurn <= s.nextId && s.respTurn <= s.reqTurn
  }

  // ---------------------------------------------------------------------
  // Every step keeps it
  // ---------------------------------------------------------------------

  /** A goroutine moves on with its id; the turnstiles and logs stay. */
  lemma MoveKeeps(s: State, p: nat, c: Pc)
    requires Inv(s) && p in s.procs && c.id == s.procs[p].id && Placed(s, c)
    ensures Inv(Moved(s, p, c))
  {
    var t := Moved(s, p, c);
    assert Separate(t) && Logged(t);
    forall q | q in t.procs ensures Placed(t, t.procs[q]) {
      assert q != p ==> Placed(s, s.procs[q]);
    }
  }

  /** Read errors and the pending body play no part in the order. */
  lemma FlagsKeep(s: State, re: bool, lastbody: bool)
    requires Inv(s)
    ensures Inv(s.(re := re, lastbody := lastbody))
  {
  }

  /** Once writing has failed or the connection is gone, it stays so. */
  lemma BreakKeeps(s: State, we: bool, open: bool)
    requires Inv(s) && (s.we ==> we) && (open ==> s.open)
    ensures Inv(s.(we := we, open := open))
  {
  }

  lemma CallReadKeeps(s: State, p: nat)
    requires Inv(s) && p !in s.procs
    ensures Inv(Next(s, CallRead(p)))
  {
    var t := Next(s, CallRead(p));
    forall q | q in t.procs ensures Placed(t, t.procs[q]) {
      assert q != p ==> Placed(s, s.procs[q]);
    }
    forall q | q in s.procs ensures s.procs[q].id < s.nextId {
      assert Placed(s, s.procs[q]);
    }
    assert Separate(t) && Logged(t);
  }

  lemma MoveFlagsKeep(s: State, p: nat, c: Pc, re: bool, lastbody: bool)
    requires Inv(s) && p in s.procs && c.id == s.procs[p].id && Placed(s, c)
    ensures Inv(Moved(s, p, c).(re := re, lastbody := lastbody))
  {
    MoveKeeps(s, p, c);
    FlagsKeep(Moved(s, p, c), re, lastbody);
  }

  lemma CheckReadKeeps(s: State, p: nat)
    requires Inv(s) && Enabled(s, CheckRead(p))
    ensures Inv(Next(s, CheckRead(p)))
  {
    assert Placed(s, s.procs[p]);
    var t := Next(s, CheckRead(p));
    MoveFlagsKeep(s, p, t.procs[p], t.re, t.lastbody);
    assert t == Moved(s, p, t.procs[p]).(re := t.re, lastbody := t.lastbody);
  }

  lemma DrainBodyKeeps(s: State, p: nat, ok: bool)
    requires Inv(s) && Enabled(s, DrainBody(p, ok))
    ensures Inv(Next(s, DrainBody(p, ok)))
  {
    assert Placed(s, s.procs[p]);
    var t := Next(s, DrainBody(p, ok));
    MoveFlagsKeep(s, p, t.procs[p], t.re, t.lastbody);
    assert t == Moved(s, p, t.procs[p]).(re := t.re, lastbody := t.lastbody);
  }

  lemma ParseFailedKeeps(s: State, p: nat, last: bool)
    requires Inv(s) && Enabled(s, ParseRequest(p, false, last))
    ensures Inv(Next(s, ParseRequest(p, false, last)))
  {
    assert Placed(s, s.procs[p]);
    MoveFlagsKeep(s, p, ReadEnd(s.procs[p].id, false), true, s.lastbody);
  }

  /** A request is read by the goroutine whose turn it is, so it comes after all
      requests read before. */
  lemma ReadIsLatest(s: State, p: nat)
    requires Inv(s) && p in s.procs && s.procs[p].ReadParse?
    ensures var id := s.procs[p].id;
            && id == s.reqTurn < s.nextId && id >= s.respTurn && id !in s.taken && id !in s.wire
            && forall i :: 0 <= i < |s.taken| ==> s.taken[i] < id
  {
    assert Placed(s, s.procs[p]);
  }

  function WithRead(s: State, p: nat): (u: State)
    requires p in s.procs
  {
    s.(nread := s.nread + 1, taken := s.taken + [s.procs[p].id], procs := s.procs[p := ReadEnd(s.procs[p].id, true)])
  }

  lemma ReadLogged(s: State, p: nat)
    requires Inv(s) && p in s.procs && s.procs[p].ReadParse?
    ensures Logged(WithRead(s, p))
  {
    ReadIsLatest(s, p);
    assert WithRead(s, p).taken[..|s.taken|] == s.taken;
  }

  lemma ReadSeparate(s: State, p: nat)
    requires Inv(s) && p in s.procs && s.procs[p].ReadParse?
    ensures Separate(WithRead(s, p))
  {
  }

  lemma ReadPlaced(s: State, p: nat, q: nat)
    requires Inv(s) && p in s.procs && s.procs[p].ReadParse? && q in s.procs
    ensures Placed(WithRead(s, p), WithRead(s, p).procs[q])
  {
    ReadIsLatest(s, p);
    assert Placed(s, s.procs[q]);
    var u := WithRead(s, p);
    assert forall x :: x in u.taken <==> x in s.taken || x == s.procs[p].id;
    assert |s.wire| < |s.taken| ==> u.taken[|s.wire|] == s.taken[|s.wire|];
  }

  lemma ReadKeeps(s: State, p: nat, last: bool)
    requires Inv(s) && Enabled(s, ParseRequest(p, true, last))
    ensures Inv(Next(s, ParseRequest(p, true, last)))
  {
    var u := WithRead(s, p);
    ReadLogged(s, p);
    ReadSeparate(s, p);
    forall q | q in u.procs ensures Placed(u, u.procs[q]) {
      ReadPlaced(s, p, q);
    }
    assert Inv(u);
    FlagsKeep(u, s.re || last, true);
  }

  lemma EndRequestPlaced(s: State, p: nat, q: nat)
    requires Inv(s) && Enabled(s, EndRequest(p)) && q in s.procs
    ensures Placed(Next(s, EndRequest(p)), Next(s, EndRequest(p)).procs[q])
  {
    assert Placed(s, s.procs[p]) && Placed(s, s.procs[q]);
  }

  lemma EndRequestKeeps(s: State, p: nat)
    requires Inv(s) && Enabled(s, EndRequest(p))
    ensures Inv(Next(s, EndRequest(p)))
  {
    var t := Next(s, EndRequest(p));
    assert Placed(s, s.procs[p]);
    forall q | q in t.procs ensures Placed(t, t.procs[q]) {
      EndRequestPlaced(s, p, q);
    }
  }

  lemma RememberKeeps(s: State, p: nat)
    requires Inv(s) && Enabled(s, Remember(p))
    ensures Inv(Next(s, Remember(p)))
  {
    var t := Next(s, Remember(p));
    forall q | q in t.procs ensures Placed(t, t.procs[q]) {
      assert Placed(s, s.procs[q]);
    }
    assert Placed(s, s.procs[p]);
  }

  lemma CallWriteKeeps(s: State, p: nat, req: nat)
    requires Inv(s) && p !in s.procs
    ensures Inv(Next(s, CallWrite(p, req)))
  {
    if req in s.pipereq {
      var t := Next(s, CallWrite(p, req));
      assert Separate(t);
      forall q | q in t.procs ensures Placed(t, t.procs[q]) {
        assert q != p ==> Placed(s, s.procs[q]);
      }
    }
  }

  /** The goroutine whose turn it is to write holds the first unanswered request,
      so there is one, and its response is the next to go out. */
  lemma NextToAnswer(s: State, p: nat)
    requires Inv(s) && p in s.procs && s.procs[p].WriteCheck?
    ensures s.nwritten < s.nread
    ensures !s.we && s.open ==> s.taken[|s.wire|] == s.procs[p].id
  {
    var id := s.procs[p].id;
    assert Placed(s, s.procs[p]);
    assert forall j :: 0 <= j < |s.wire| ==> s.wire[j] == s.taken[j];
    var k :| 0 <= k < |s.taken| && s.taken[k] == id;
  }

  lemma CheckWriteKeeps(s: State, a: Action)
    requires Inv(s) && Enabled(s, a) && a.CheckWrite?
    ensures Inv(Next(s, a))
  {
    var t := Next(s, a);
    var c := t.procs[a.p];
    assert Placed(s, s.procs[a.p]);
    NextToAnswer(s, a.p);
    MoveKeeps(s, a.p, c);
    FlagsKeep(Moved(s, a.p, c), t.re, t.lastbody);
    assert t == Moved(s, a.p, c).(re := t.re, lastbody := t.lastbody);
  }

  lemma SentLogged(s: State, p: nat)
    requires Inv(s) && Enabled(s, SendResponse(p, true))
    ensures Logged(Next(s, SendResponse(p, true)))
  {
    var t := Next(s, SendResponse(p, true));
    assert Placed(s, s.procs[p]);
    assert t.wire == s.taken[..|t.wire|];
  }

  lemma SentPlaced(s: State, p: nat, q: nat)
    requires Inv(s) && Enabled(s, SendResponse(p, true)) && q in s.procs
    ensures Placed(Next(s, SendResponse(p, true)), Next(s, SendResponse(p, true)).procs[q])
  {
    assert Placed(s, s.procs[p]) && Placed(s, s.procs[q]);
  }

  lemma SentKeeps(s: State, p: nat)
    requires Inv(s) && Enabled(s, SendResponse(p, true))
    ensures Inv(Next(s, SendResponse(p, true)))
  {
    var t := Next(s, SendResponse(p, true));
    SentLogged(s, p);
    assert Placed(s, s.procs[p]);
    forall q | q in t.procs ensures Placed(t, t.procs[q]) {
      SentPlaced(s, p, q);
    }
  }

  lemma SendFailedKeeps(s: State, p: nat)
    requires Inv(s) && Enabled(s, SendResponse(p, false))
    ensures Inv(Next(s, SendResponse(p, false)))
  {
    BreakKeeps(s, true, s.open);
    var u := s.(we := true);
    assert Placed(s, s.procs[p]);
    MoveKeeps(u, p, WriteEnd(s.procs[p].id));
    assert Next(s, SendResponse(p, false)) == Moved(u, p, WriteEnd(s.procs[p].id));
  }

  lemma TurnPassedPlaced(s: State, a: Action, q: nat)
    requires Inv(s) && Enabled(s, a) && (a.EndSkip? || a.EndResponse?) && q in s.procs && q != a.p
    ensures Placed(Next(s, a), s.procs[q])
  {
    assert Placed(s, s.procs[a.p]) && Placed(s, s.procs[q]);
  }

  lemma TurnPassedLogged(s: State, a: Action)
    requires Inv(s) && Enabled(s, a) && (a.EndSkip? || a.EndResponse?)
    ensures Logged(Next(s, a))
  {
    assert Placed(s, s.procs[a.p]);
  }

  lemma TurnPassedKeeps(s: State, a: Action)
    requires Inv(s) && Enabled(s, a) && (a.EndSkip? || a.EndResponse?)
    ensures Inv(Next(s, a))
  {
    var t := Next(s, a);
    assert Placed(s, s.procs[a.p]);
    TurnPassedLogged(s, a);
    forall q | q in t.procs ensures Placed(t, t.procs[q]) {
      TurnPassedPlaced(s, a, q);
    }
  }

  /** Read and its goroutine. */
  predicate Reads(a: Action)
  {
    a.CallRead? || a.TakeRequestTurn? || a.CheckRead? || a.DrainBody? || a.ParseRequest? || a.EndRequest?
    || a.TakeSkipTurn? || a.EndSkip? || a.Remember?
  }

  lemma ReadActionKeeps(s: State, a: Action)
    requires Inv(s) && Enabled(s, a) && Reads(a)
    ensures Inv(Next(s, a))
  {
    match a
    case CallRead(p) => CallReadKeeps(s, p);
    case TakeRequestTurn(p) => MoveKeeps(s, p, ReadCheck(s.procs[p].id));
    case CheckRead(p) => CheckReadKeeps(s, p);
    case DrainBody(p, ok) => DrainBodyKeeps(s, p, ok);
    case ParseRequest(p, ok, last) => if ok { ReadKeeps(s, p, last); } else { ParseFailedKeeps(s, p, last); }
    case EndRequest(p) => EndRequestKeeps(s, p);
    case TakeSkipTurn(p) => MoveKeeps(s, p, ReadSkipEnd(s.procs[p].id));
    case EndSkip(_) => TurnPassedKeeps(s, a);
    case Remember(p) => RememberKeeps(s, p);
  }

  lemma WriteActionKeeps(s: State, a: Action)
    requires Inv(s) && Enabled(s, a) && !Reads(a)
    ensures Inv(Next(s, a))
  {
    match a
    case CallWrite(p, req) => CallWriteKeeps(s, p, req);
    case TakeResponseTurn(p) => MoveKeeps(s, p, WriteCheck(s.procs[p].id));
    case CheckWrite(_, _) => CheckWriteKeeps(s, a);
    case SendResponse(p, ok) => if ok { SentKeeps(s, p); } else { SendFailedKeeps(s, p); }
    case EndResponse(_) => TurnPassedKeeps(s, a);
    case Hijack => BreakKeeps(s, s.we, false);
  }

  lemma StepKeeps(s: State, a: Action)
    requires Inv(s) && Enabled(s, a)
    ensures Inv(Next(s, a))
  {
    if Reads(a) {
      ReadActionKeeps(s, a);
    } else {
      WriteActionKeeps(s, a);
    }
  }

  // ---------------------------------------------------------------------
  // Every run
  // ---------------------------------------------------------------------

  predicate ValidRun(s: State, acts: seq<Action>)
    decreases |acts|
  {
    acts == [] || (Enabled(s, acts[0]) && ValidRun(Next(s, acts[0]), acts[1..]))
  }

  function Run(s: State, acts: seq<Action>): (t: State)
    requires ValidRun(s, acts)
    decreases |acts|
  {
    if acts == [] then s else Run(Next(s, acts[0]), acts[1..])
  }

  lemma {:induction false} RunKeeps(s: State, acts: seq<Action>)
    requires Inv(s) && ValidRun(s, acts)
    ensures Inv(Run(s, acts))
    decreases |acts|
  {
    if acts != [] {
      StepKeeps(s, acts[0]);
      RunKeeps(Next(s, acts[0]), acts[1..]);
    }
  }

  /** In every interleaving the responses on the wire answer the first requests
      read, in the order they were read, each once: a failed read, a failed write
      or a closed connection never lets a later response go first. */
  lemma ResponsesInOrder(acts: seq<Action>)
    requires ValidRun(INIT, acts)
    ensures var s := Run(INIT, acts);
            && s.wire <= s.taken
            && (forall i, j :: 0 <= i < j < |s.taken| ==> s.taken[i] < s.taken[j])
            && s.nread == |s.taken| && s.nwritten == |s.wire|
            && s.nwritten <= s.nread
  {
    RunKeeps(INIT, acts);
  }

  /** The "persist server pipe count" branch of Write cannot be taken. */
  lemma PipeCountUnreachable(acts: seq<Action>, p: nat)
    requires ValidRun(INIT, acts)
    requires var s := Run(INIT, acts); p in s.procs && s.procs[p].WriteCheck?
    ensures var s := Run(INIT, acts); s.nwritten < s.nread
  {
    RunKeeps(INIT, acts);
    NextToAnswer(Run(INIT, acts), p);
  }

  /** The turnstiles are never out of step: whoever ends a turn has it, and a
      request can be answered by one Write only. */
  lemma TurnsInStep(acts: seq<Action>, p: nat)
    requires ValidRun(INIT, acts)
    requires p in Run(INIT, acts).procs
    ensures var s := Run(INIT, acts); var c := s.procs[p];
            && (c.ReadEnd? ==> s.reqTurn == c.id)
            && (c.ReadSkipEnd? || c.WriteEnd? ==> s.respTurn == c.id)
            && c.id !in s.pipereq
            && (forall q :: q in s.procs && s.procs[q].id == c.id ==> q == p)
  {
    RunKeeps(INIT, acts);
    assert Placed(Run(INIT, acts), Run(INIT, acts).procs[p]);
  }

  // ---------------------------------------------------------------------
  // No id is lost
  // ---------------------------------------------------------------------

  predicate HeldBy(s: State, id: nat, p: nat)
  {
    p in s.procs && s.procs[p].id == id
  }

  /** The id is with a goroutine, or its request waits for a Write. */
  ghost predicate Somewhere(s: State, id: nat)
  {
    id in s.pipereq || exists p :: HeldBy(s, id, p)
  }

  ghost predicate Accounted(s: State)
  {
    forall id :: s.respTurn <= id < s.nextId ==> Somewhere(s, id)
  }

  lemma QueuedNext(s: State, a: Action, id: nat)
    requires Enabled(s, a) && id in s.pipereq && s.pipereq[id] == id
    ensures Somewhere(Next(s, a), id)
  {
    var t := Next(s, a);
    if id !in t.pipereq {
      assert HeldBy(t, id, a.p);
    }
  }

  lemma OtherHeldNext(s: State, a: Action, id: nat, p: nat)
    requires Enabled(s, a) && HeldBy(s, id, p) && (a.Hijack? || a.p != p)
    ensures Somewhere(Next(s, a), id)
  {
    assert HeldBy(Next(s, a), id, p);
  }

  lemma HeldNext(s: State, a: Action, id: nat, p: nat)
    requires Enabled(s, a) && HeldBy(s, id, p) && !a.Hijack? && a.p == p
    requires HasResponseTurn(s.procs[p]) ==> id == s.respTurn
    requires Next(s, a).respTurn <= id
    ensures Somewhere(Next(s, a), id)
  {
    var t := Next(s, a);
    match a
    case Remember(_) =>
      assert id in t.pipereq;
    case EndSkip(_) =>
    case EndResponse(_) =>
    case TakeRequestTurn(_) =>
      assert HeldBy(t, id, p);
    case CheckRead(_) =>
      assert HeldBy(t, id, p);
    case DrainBody(_, _) =>
      assert HeldBy(t, id, p);
    case ParseRequest(_, _, _) =>
      assert HeldBy(t, id, p);
    case EndRequest(_) =>
      assert HeldBy(t, id, p);
    case TakeSkipTurn(_) =>
      assert HeldBy(t, id, p);
    case TakeResponseTurn(_) =>
      assert HeldBy(t, id, p);
    case CheckWrite(_, _) =>
      assert HeldBy(t, id, p);
    case SendResponse(_, _) =>
      assert HeldBy(t, id, p);
  }

  lemma NewId(s: State, a: Action, id: nat)
    requires Enabled(s, a) && s.nextId <= id < Next(s, a).nextId
    ensures Somewhere(Next(s, a), id)
  {
    assert HeldBy(Next(s, a), id, a.p);
  }

  lemma TurnsGrow(s: State, a: Action)
    requires Enabled(s, a)
    ensures s.respTurn <= Next(s, a).respTurn
  {
    match a
    case EndSkip(_) =>
    case EndResponse(_) =>
    case Hijack =>
    case CallRead(_) =>
    case CallWrite(_, _) =>
    case Remember(_) =>
    case TakeRequestTurn(_) =>
    case CheckRead(_) =>
    case DrainBody(_, _) =>
    case ParseRequest(_, _, _) =>
    case EndRequest(_) =>
    case TakeSkipTurn(_) =>
    case TakeResponseTurn(_) =>
    case CheckWrite(_, _) =>
    case SendResponse(_, _) =>
  }

  /** Where an id is after a step. */
  lemma SomewhereNext(s: State, a: Action, id: nat)
    requires Inv(s) && Enabled(s, a) && Somewhere(s, id) && Next(s, a).respTurn <= id
    ensures Somewhere(Next(s, a), id)
  {
    if id in s.pipereq {
      QueuedNext(s, a, id);
    } else {
      var p :| HeldBy(s, id, p);
      assert Placed(s, s.procs[p]);
      if a.Hijack? || a.p != p {
        OtherHeldNext(s, a, id, p);
      } else {
        HeldNext(s, a, id, p);
      }
    }
  }

  lemma AccountedKeeps(s: State, a: Action)
    requires Inv(s) && Enabled(s, a) && Accounted(s)
    ensures Accounted(Next(s, a))
  {
    var t := Next(s, a);
    TurnsGrow(s, a);
    forall id | t.respTurn <= id < t.nextId ensures Somewhere(t, id) {
      if id < s.nextId {
        assert Somewhere(s, id);
        SomewhereNext(s, a, id);
      } else {
        NewId(s, a, id);
      }
    }
  }

  lemma {:induction false} RunAccounts(s: State, acts: seq<Action>)
    requires Inv(s) && Accounted(s) && ValidRun(s, acts)
    ensures Inv(Run(s, acts)) && Accounted(Run(s, acts))
    decreases |acts|
  {
    if acts != [] {
      StepKeeps(s, acts[0]);
      AccountedKeeps(s, acts[0]);
      RunAccounts(Next(s, acts[0]), acts[1..]);
    }
  }

  /** What a goroutine that holds the id whose turn it is to respond does next. */
  function Move(s: State, p: nat): (a: Action)
    requires p in s.procs
  {
    match s.procs[p]
    case ReadStart(_) => TakeRequestTurn(p)
    case ReadCheck(_) => CheckRead(p)
    case ReadDrain(_) => DrainBody(p, true)
    case ReadParse(_) => ParseRequest(p, true, false)
    case ReadEnd(_, _) => EndRequest(p)
    case ReadSkip(_) => TakeSkipTurn(p)
    case ReadSkipEnd(_) => EndSkip(p)
    case ReadRemember(_) => Remember(p)
    case WriteWait(_) => TakeResponseTurn(p)
    case WriteCheck(_) => CheckWrite(p, false)
    case WriteSend(_) => SendResponse(p, true)
    case WriteEnd(_) => EndResponse(p)
  }

  /** In every interleaving every id handed out and not yet done is in one place
      only, and if the response turn has not reached the end, either the goroutine
      that holds its id can go on, or the request of that id is waiting to be
      answered: nothing but an unanswered request ever holds up writing. */
  lemma OnlyTheUnansweredStall(acts: seq<Action>)
    requires ValidRun(INIT, acts)
    ensures var s := Run(INIT, acts);
            && Accounted(s) && Separate(s)
            && (s.respTurn < s.nextId && s.respTurn !in s.pipereq ==>
                  exists p :: HeldBy(s, s.respTurn, p) && Enabled(s, Move(s, p)))
  {
    RunAccounts(INIT, acts);
    var s := Run(INIT, acts);
    if s.respTurn < s.nextId && s.respTurn !in s.pipereq {
      assert Somewhere(s, s.respTurn);
      var p :| HeldBy(s, s.respTurn, p);
      assert Placed(s, s.procs[p]);
      assert Enabled(s, Move(s, p));
    }
  }
}
