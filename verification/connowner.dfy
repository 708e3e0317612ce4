/** One cached connection under concurrency: the requests it is handed to, its
    read loop, and the goroutines that consume response bodies, as interleaved
    steps. What happens on other connections does not touch these. */
module ConnOwner {
  /** roundTrip. */
  datatype TripPc = Got | Counted | Sent | Answered | Gone

  /** The callback of a response body: not there, armed, called, about to tell
      the read loop, told but not yet cleared, cleared. */
  datatype Fn = NoFn | Armed | Called | Telling | Told | Cleared

  /** A request that was handed this connection. `fn` follows the first call of its
      body's callback; `again` and `waiting` count further calls that have yet to
      cache the connection, and to tell the read loop; `unset` says that one of
      those was the first to clear the field. */
  datatype Trip = Trip(pc: TripPc, head: bool, hasBody: bool, done: bool, fn: Fn, isClosed: bool, released: bool, fires: nat,
                       again: nat, waiting: nat, unset: bool)

  const NEW_TRIP := Trip(Got, false, false, false, NoFn, false, false, 0, 0, 0, false)

  /** es.fn is not nil, and being called. */
  predicate InCall(t: Trip)
  {
    !t.unset && (t.fn.Called? || t.fn.Telling? || t.fn.Told?)
  }

  /** es.fn is not nil. */
  predicate HasFn(t: Trip)
  {
    InCall(t) || (!t.unset && t.fn.Armed?)
  }

  /** A reader or closer of the body calls the callback. */
  function Fire(t: Trip): (u: Trip)
  {
    if t.fn.Armed? then t.(done := true, fn := Called, fires := t.fires + 1)
    else t.(done := true, fires := t.fires + 1, again := t.again + 1)
  }

  /** readLoop. */
  datatype Loop =
    | Peek
    | Receive
    | CloseLast(r: nat)
    | ReadHead(r: nat)
    | Deliver(r: nat)
    | AwaitBody(r: nat)
    | Stuck
    | Over

  /** `pooled` is how often the cache lists the connection; `trips` are the
      requests it was handed to, in order. */
  datatype Conn = Conn(pooled: nat, broken: bool, alive: bool, expected: int, reqch: seq<nat>,
                       loop: Loop, lastbody: int, trips: seq<Trip>)

  /** A freshly dialled connection belongs to the request that dialled it. */
  const DIALLED := Conn(0, false, true, 0, [], Peek, -1, [NEW_TRIP])

  datatype Step =
    | Hand                                       // getIdleConn returns it to a new request
    | Drop                                       // it leaves the cache unused
    | Count(r: nat)
    | WriteRequest(r: nat, ok: bool)
    | LoopPeek
    | LoopReceive
    | LoopCloseLast(ok: bool, cached: bool)
    | LoopReadHead(ok: bool, hasBody: bool, close: bool, cached: bool)
    | LoopDeliver
    | TripReturns(r: nat)
    | BodyEof(r: nat)
    | BodyClose(r: nat, ok: bool)
    | FnPut(r: nat, cached: bool)
    | FnTell(r: nat)
    | FnClear(r: nat)
    | AgainPut(r: nat, cached: bool)
    | AgainTell(r: nat)

  predicate Has(s: Conn, r: nat)
  {
    r < |s.trips|
  }

  /** The read loop closes the last body; Close does nothing the second time. */
  predicate LoopFires(s: Conn, ok: bool)
  {
    0 <= s.lastbody < |s.trips| && ok && !s.trips[s.lastbody].isClosed && HasFn(s.trips[s.lastbody])
  }

  predicate Enabled(s: Conn, e: Step)
  {
    match e
    case Hand => s.pooled > 0 && !s.broken
    case Drop => s.pooled > 0
    case Count(r) => Has(s, r) && s.trips[r].pc.Got?
    case WriteRequest(r, _) => Has(s, r) && s.trips[r].pc.Counted?
    case LoopPeek => s.loop.Peek?
    case LoopReceive => s.loop.Receive? && s.reqch != [] && Has(s, s.reqch[0])
    case LoopCloseLast(_, _) => s.loop.CloseLast? && Has(s, s.loop.r)
    case LoopReadHead(_, _, _, _) => s.loop.ReadHead? && Has(s, s.loop.r)
    case LoopDeliver => s.loop.Deliver? && Has(s, s.loop.r)
    case TripReturns(r) => Has(s, r) && s.trips[r].pc.Answered?
    case BodyEof(r) => Has(s, r) && s.trips[r].pc.Gone? && HasFn(s.trips[r])
    case BodyClose(r, _) => Has(s, r) && s.trips[r].pc.Gone? && s.trips[r].hasBody && !s.trips[r].isClosed
    case FnPut(r, _) => Has(s, r) && s.trips[r].fn.Called?
    case FnTell(r) => Has(s, r) && s.trips[r].fn.Telling? && s.loop == AwaitBody(r)
    case FnClear(r) => Has(s, r) && s.trips[r].fn.Told?
    case AgainPut(r, _) => Has(s, r) && s.trips[r].again > 0
    case AgainTell(r) => Has(s, r) && s.trips[r].waiting > 0 && s.loop == AwaitBody(r)
  }

  function With(s: Conn, r: nat, t: Trip): (u: Conn)
    requires Has(s, r)
  {
    s.(trips := s.trips[r := t])
  }

  /** putIdleConn by the holder `r`; it may be refused. */
  function Put(s: Conn, r: nat, cached: bool): (u: Conn)
    requires Has(s, r)
    ensures |u.trips| == |s.trips|
  {
    if cached && !s.broken then With(s, r, s.trips[r].(released := true)).(pooled := s.pooled + 1)
    else s.(alive := false, broken := true)
  }

  function Next(s: Conn, e: Step): (u: Conn)
    requires Enabled(s, e)
  {
    match e
    case Hand => s.(pooled := s.pooled - 1, trips := s.trips + [NEW_TRIP])
    case Drop => s.(pooled := s.pooled - 1, broken := true)
    case Count(r) => With(s, r, s.trips[r].(pc := Counted)).(expected := s.expected + 1)
    case WriteRequest(r, ok) =>
      if ok then With(s, r, s.trips[r].(pc := Sent)).(reqch := s.reqch + [r])
      else With(s, r, s.trips[r].(pc := Gone)).(broken := true)
    case LoopPeek => if s.expected == 0 then s.(broken := true, loop := Over) else s.(loop := Receive)
    case LoopReceive =>
      s.(reqch := s.reqch[1..], loop := if s.lastbody >= 0 then CloseLast(s.reqch[0]) else ReadHead(s.reqch[0]))
    case LoopCloseLast(ok, cached) =>
      if LoopFires(s, ok) then
        var q := s.trips[s.lastbody];
        var u := With(s, s.lastbody, q.(fires := q.fires + 1, isClosed := true)).(loop := Stuck);
        if s.alive then Put(u, s.lastbody, cached) else u.(broken := true)
      else s.(loop := ReadHead(s.loop.r), lastbody := -1)
    case LoopReadHead(ok, hasBody, close, cached) =>
      var r := s.loop.r;
      if !ok then s.(broken := true, alive := false, loop := Deliver(r))
      else
        var t := s.trips[r].(head := true, hasBody := hasBody, fn := if hasBody then Armed else NoFn);
        var u := With(s, r, t).(alive := s.alive && !close, loop := Deliver(r), lastbody := if hasBody then r else -1);
        if u.alive && !hasBody then Put(u, r, cached) else u
    case LoopDeliver =>
      var r := s.loop.r;
      var u := With(s, r, s.trips[r].(pc := Answered));
      if s.trips[r].hasBody then u.(loop := AwaitBody(r))
      else if s.alive then u.(loop := Peek) else u.(broken := true, loop := Over)
    case TripReturns(r) => With(s, r, s.trips[r].(pc := Gone)).(expected := s.expected - 1)
    case BodyEof(r) => With(s, r, Fire(s.trips[r]))
    case BodyClose(r, ok) =>
      var t := s.trips[r].(isClosed := true);
      With(s, r, if ok && HasFn(t) then Fire(t) else t)
    case FnPut(r, cached) =>
      var u := if s.alive then Put(s, r, cached) else s.(broken := true);
      With(u, r, u.trips[r].(fn := Telling))
    case FnTell(r) =>
      With(s, r, s.trips[r].(fn := Told)).(
        loop := if s.alive then Peek else Over, broken := s.broken || !s.alive)
    case FnClear(r) => With(s, r, s.trips[r].(fn := Cleared))
    case AgainPut(r, cached) =>
      var u := if s.alive then Put(s, r, cached) else s.(broken := true);
      With(u, r, u.trips[r].(again := u.trips[r].again - 1, waiting := u.trips[r].waiting + 1))
    case AgainTell(r) =>
      With(s, r, s.trips[r].(waiting := s.trips[r].waiting - 1, unset := true)).(
        loop := if s.alive then Peek else Over, broken := s.broken || !s.alive)
  }

  // ---------------------------------------------------------------------
  // Ownership
  // ---------------------------------------------------------------------

  /** The response head was read and, if there is a body, its end was seen. */
  predicate Finished(t: Trip)
  {
    t.head && (t.hasBody ==> t.done)
  }

  predicate TripOk(t: Trip)
  {
    && (t.released ==> Finished(t) && t.pc != Got && t.pc != Counted && !t.fn.Armed? && !t.fn.Called?)
    && (t.fn.Armed? ==> t.head && t.hasBody && t.fires == 0)
    && (t.fn.Called? || t.fn.Telling? || t.fn.Told? || t.fn.Cleared? ==> t.head && t.hasBody && t.done && t.fires == 1)
    && (!t.head ==> t.fn.NoFn? && !t.hasBody)
    && t.fires <= 1 && (t.fn.NoFn? ==> t.fires == 0)
    && (t.pc.Got? || t.pc.Counted? ==> !t.head)
    && t.again == 0 && t.waiting == 0 && !t.unset
  }

  predicate LoopOk(s: Conn)
  {
    var last := |s.trips| - 1;
    match s.loop
    case CloseLast(r) => r == last && !s.trips[r].head && s.trips[r].pc.Sent? && !s.trips[r].released && s.reqch == []
    case ReadHead(r) => r == last && !s.trips[r].head && s.trips[r].pc.Sent? && !s.trips[r].released && s.reqch == [] && s.lastbody == -1
    case Deliver(r) => Has(s, r) && s.trips[r].pc.Sent? && (s.trips[r].hasBody ==> s.trips[r].fn.Armed?) && r !in s.reqch
    case AwaitBody(r) => Has(s, r) && s.trips[r].hasBody
                         && (s.trips[r].fn.Armed? || s.trips[r].fn.Called? || s.trips[r].fn.Telling?)
    case _ => true
  }

  predicate Owned(s: Conn)
  {
    var last := |s.trips| - 1;
    && |s.trips| > 0
    && (forall i :: 0 <= i < |s.trips| ==> TripOk(s.trips[i]))
    && (forall i :: 0 <= i < last ==> s.trips[i].released)
    && s.pooled <= 1 && (s.pooled == 1 ==> s.trips[last].released)
    && (s.reqch == [] || (s.reqch == [last] && s.trips[last].pc.Sent? && !s.trips[last].head && !s.trips[last].released))
    && -1 <= s.lastbody < |s.trips|
    && (s.lastbody >= 0 ==> s.trips[s.lastbody].hasBody && s.trips[s.lastbody].head)
    && LoopOk(s)
  }

  // ---------------------------------------------------------------------
  // Every step but one keeps it
  // ---------------------------------------------------------------------

  /** The step calls the callback of a body while it is being called: the read
      loop closes the last body, or another goroutine that has the body reads to
      its end or closes it. */
  predicate Refires(s: Conn, e: Step)
  {
    match e
    case LoopCloseLast(ok, _) => LoopFires(s, ok)
    case BodyEof(r) => Has(s, r) && InCall(s.trips[r])
    case BodyClose(r, ok) => ok && Has(s, r) && InCall(s.trips[r])
    case _ => false
  }

  predicate Calm(s: Conn, e: Step)
  {
    !Refires(s, e)
  }

  /** Changing one trip keeps the rest. */
  lemma TripKeeps(s: Conn, r: nat, t: Trip)
    requires Owned(s) && Has(s, r) && TripOk(t)
    requires t.released == s.trips[r].released && t.head == s.trips[r].head && t.hasBody == s.trips[r].hasBody
    requires r in s.reqch ==> t.pc.Sent?
    requires LoopOk(With(s, r, t))
    ensures Owned(With(s, r, t))
  {
  }

  lemma HandKeeps(s: Conn)
    requires Owned(s) && Enabled(s, Hand)
    ensures Owned(Next(s, Hand))
  {
  }

  /** How many answers are expected plays no part. */
  lemma ExpectedKeeps(s: Conn, n: int)
    requires Owned(s)
    ensures Owned(s.(expected := n))
  {
  }

  lemma CountKeeps(s: Conn, r: nat)
    requires Owned(s) && Enabled(s, Count(r))
    ensures Owned(Next(s, Count(r)))
  {
    assert TripOk(s.trips[r]);
    TripKeeps(s, r, s.trips[r].(pc := Counted));
    ExpectedKeeps(With(s, r, s.trips[r].(pc := Counted)), s.expected + 1);
  }

  /** The read loop is done with a request that has its answer. */
  lemma AnsweredLoop(s: Conn, r: nat)
    requires Owned(s) && Has(s, r) && s.trips[r].pc.Answered?
    ensures r !in s.reqch && LoopOk(With(s, r, s.trips[r].(pc := Gone)))
  {
  }

  lemma TripReturnsKeeps(s: Conn, r: nat)
    requires Owned(s) && Enabled(s, TripReturns(r))
    ensures Owned(Next(s, TripReturns(r)))
  {
    assert TripOk(s.trips[r]);
    var t := s.trips[r].(pc := Gone);
    AnsweredLoop(s, r);
    assert TripOk(t);
    TripKeeps(s, r, t);
    ExpectedKeeps(With(s, r, t), s.expected - 1);
  }

  lemma FnClearKeeps(s: Conn, r: nat)
    requires Owned(s) && Enabled(s, FnClear(r))
    ensures Owned(Next(s, FnClear(r)))
  {
    assert TripOk(s.trips[r]);
    TripKeeps(s, r, s.trips[r].(fn := Cleared));
  }

  lemma WriteKeeps(s: Conn, r: nat)
    requires Owned(s) && Enabled(s, WriteRequest(r, true))
    ensures Owned(Next(s, WriteRequest(r, true)))
  {
    var t := s.trips[r].(pc := Sent);
    assert TripOk(s.trips[r]) && TripOk(t);
    assert r == |s.trips| - 1;
    TripKeeps(s, r, t);
  }

  lemma WriteFailedKeeps(s: Conn, r: nat)
    requires Owned(s) && Enabled(s, WriteRequest(r, false))
    ensures Owned(Next(s, WriteRequest(r, false)))
  {
    var t := s.trips[r].(pc := Gone);
    assert TripOk(s.trips[r]) && TripOk(t);
    assert r == |s.trips| - 1;
    TripKeeps(s, r, t);
  }

  lemma ReceiveKeeps(s: Conn)
    requires Owned(s) && Enabled(s, LoopReceive)
    ensures Owned(Next(s, LoopReceive))
  {
  }

  lemma CloseLastKeeps(s: Conn, e: Step)
    requires Owned(s) && Enabled(s, e) && e.LoopCloseLast? && Calm(s, e)
    ensures Owned(Next(s, e))
  {
  }

  lemma ReadHeadKeeps(s: Conn, e: Step)
    requires Owned(s) && Enabled(s, e) && e.LoopReadHead?
    ensures Owned(Next(s, e))
  {
    assert TripOk(s.trips[s.loop.r]);
  }

  lemma DeliverKeeps(s: Conn, e: Step)
    requires Owned(s) && Enabled(s, e) && e.LoopDeliver?
    ensures Owned(Next(s, e))
  {
    assert TripOk(s.trips[s.loop.r]);
  }

  lemma FireKeeps(s: Conn, r: nat)
    requires Owned(s) && Has(s, r) && s.trips[r].pc.Gone? && s.trips[r].fn.Armed?
    ensures Owned(With(s, r, Fire(s.trips[r])))
  {
    assert TripOk(s.trips[r]);
    TripKeeps(s, r, Fire(s.trips[r]));
  }

  lemma ClosedKeeps(s: Conn, r: nat)
    requires Owned(s) && Has(s, r) && s.trips[r].pc.Gone?
    ensures Owned(With(s, r, s.trips[r].(isClosed := true)))
  {
    assert TripOk(s.trips[r]);
    TripKeeps(s, r, s.trips[r].(isClosed := true));
  }

  lemma BodyEofKeeps(s: Conn, r: nat)
    requires Owned(s) && Enabled(s, BodyEof(r)) && Calm(s, BodyEof(r))
    ensures Owned(Next(s, BodyEof(r)))
  {
    FireKeeps(s, r);
  }

  lemma BodyCloseKeeps(s: Conn, r: nat, ok: bool)
    requires Owned(s) && Enabled(s, BodyClose(r, ok)) && Calm(s, BodyClose(r, ok))
    ensures Owned(Next(s, BodyClose(r, ok)))
  {
    ClosedKeeps(s, r);
    var u := With(s, r, s.trips[r].(isClosed := true));
    if ok && HasFn(u.trips[r]) {
      FireKeeps(u, r);
      assert Next(s, BodyClose(r, ok)).trips == With(u, r, Fire(u.trips[r])).trips;
    }
  }

  lemma FnPutKeeps(s: Conn, e: Step)
    requires Owned(s) && Enabled(s, e) && e.FnPut?
    ensures Owned(Next(s, e))
  {
    assert TripOk(s.trips[e.r]);
  }

  lemma FnTellKeeps(s: Conn, e: Step)
    requires Owned(s) && Enabled(s, e) && e.FnTell?
    ensures Owned(Next(s, e))
  {
    assert TripOk(s.trips[e.r]);
  }

  lemma NoSecondCalls(s: Conn, e: Step)
    requires Owned(s) && Enabled(s, e)
    ensures !e.AgainPut? && !e.AgainTell?
  {
    assert e.AgainPut? || e.AgainTell? ==> TripOk(s.trips[e.r]);
  }

  predicate OfLoop(e: Step)
  {
    e.LoopPeek? || e.LoopReceive? || e.LoopCloseLast? || e.LoopReadHead? || e.LoopDeliver?
  }

  lemma LoopStepKeeps(s: Conn, e: Step)
    requires Owned(s) && Enabled(s, e) && Calm(s, e) && OfLoop(e)
    ensures Owned(Next(s, e))
  {
    match e
    case LoopPeek =>
    case LoopReceive => ReceiveKeeps(s);
    case LoopCloseLast(_, _) => CloseLastKeeps(s, e);
    case LoopReadHead(_, _, _, _) => ReadHeadKeeps(s, e);
    case LoopDeliver => DeliverKeeps(s, e);
  }

  lemma CallerStepKeeps(s: Conn, e: Step)
    requires Owned(s) && Enabled(s, e) && Calm(s, e) && !OfLoop(e) && !e.AgainPut? && !e.AgainTell?
    ensures Owned(Next(s, e))
  {
    match e
    case Hand => HandKeeps(s);
    case Drop =>
    case Count(r) => CountKeeps(s, r);
    case WriteRequest(r, ok) => if ok { WriteKeeps(s, r); } else { WriteFailedKeeps(s, r); }
    case TripReturns(r) => TripReturnsKeeps(s, r);
    case BodyEof(r) => BodyEofKeeps(s, r);
    case BodyClose(r, ok) => BodyCloseKeeps(s, r, ok);
    case FnPut(_, _) => FnPutKeeps(s, e);
    case FnTell(_) => FnTellKeeps(s, e);
    case FnClear(r) => FnClearKeeps(s, r);
  }

  lemma StepKeeps(s: Conn, e: Step)
    requires Owned(s) && Enabled(s, e) && Calm(s, e)
    ensures Owned(Next(s, e))
  {
    NoSecondCalls(s, e);
    if OfLoop(e) {
      LoopStepKeeps(s, e);
    } else {
      CallerStepKeeps(s, e);
    }
  }

  // ---------------------------------------------------------------------
  // Every run
  // ---------------------------------------------------------------------

  predicate ValidRun(s: Conn, es: seq<Step>)
    decreases |es|
  {
    es == [] || (Enabled(s, es[0]) && ValidRun(Next(s, es[0]), es[1..]))
  }

  /** No callback is run twice along the run. */
  predicate CalmRun(s: Conn, es: seq<Step>)
    requires ValidRun(s, es)
    decreases |es|
  {
    es == [] || (Calm(s, es[0]) && CalmRun(Next(s, es[0]), es[1..]))
  }

  function Run(s: Conn, es: seq<Step>): (u: Conn)
    requires ValidRun(s, es)
    decreases |es|
  {
    if es == [] then s else Run(Next(s, es[0]), es[1..])
  }

  lemma {:induction false} RunKeeps(s: Conn, es: seq<Step>)
    requires Owned(s) && ValidRun(s, es) && CalmRun(s, es)
    ensures Owned(Run(s, es))
    decreases |es|
  {
    if es != [] {
      StepKeeps(s, es[0]);
      RunKeeps(Next(s, es[0]), es[1..]);
    }
  }

  /** In every calm interleaving, when the cache hands the connection out, all
      requests before have their response head read and their body, if any, read
      to its end or closed; it is cached at most once, and no callback has run
      more than once. */
  lemma HandedOutFinished(es: seq<Step>)
    requires ValidRun(DIALLED, es) && CalmRun(DIALLED, es)
    ensures var s := Run(DIALLED, es);
            && s.pooled <= 1
            && (Enabled(s, Hand) ==> forall i :: 0 <= i < |s.trips| ==> Finished(s.trips[i]))
            && (forall i :: 0 <= i < |s.trips| ==> s.trips[i].fires <= 1)
            && (forall i :: 0 <= i < |s.trips| - 1 ==> Finished(s.trips[i]))
  {
    assert TripOk(NEW_TRIP);
    RunKeeps(DIALLED, es);
    var s := Run(DIALLED, es);
    assert forall i :: 0 <= i < |s.trips| ==> TripOk(s.trips[i]);
  }

  /** The read loop's own step of that kind: closing a body whose callback is not
      cleared yet calls it again and leaves the read loop waiting for itself. The
      connection is then in the cache while it serves another request, exactly if
      it was sound and there was room. */
  lemma RefireBreaks(s: Conn, e: Step)
    requires Owned(s) && Enabled(s, e) && e.LoopCloseLast? && !Calm(s, e)
    ensures var u := Next(s, e);
            && u.trips[s.lastbody].fires == 2 && u.loop.Stuck? && !Finished(u.trips[|u.trips| - 1])
            && (Enabled(u, Hand) <==> s.alive && !s.broken && e.cached)
  {
    assert s.lastbody != s.loop.r;
    assert TripOk(s.trips[s.lastbody]);
  }

  /** Every step of that kind calls a callback the second time. */
  lemma RefireFires(s: Conn, e: Step)
    requires Owned(s) && Enabled(s, e) && !Calm(s, e)
    ensures FiredTwice(Next(s, e))
  {
    var r := if e.LoopCloseLast? then s.lastbody else e.r;
    if e.LoopCloseLast? {
      RefireBreaks(s, e);
    }
    assert TripOk(s.trips[r]);
    assert Next(s, e).trips[r].fires == 2;
  }

  predicate FiredTwice(s: Conn)
  {
    exists i :: 0 <= i < |s.trips| && s.trips[i].fires >= 2
  }

  /** Callbacks that have run stay run. */
  lemma FiresGrow(s: Conn, e: Step, i: nat)
    requires Enabled(s, e) && Has(s, i)
    ensures Has(Next(s, e), i) && Next(s, e).trips[i].fires >= s.trips[i].fires
  {
    match e
    case Hand =>
    case Drop =>
    case Count(_) =>
    case WriteRequest(_, _) =>
    case LoopPeek =>
    case LoopReceive =>
    case LoopCloseLast(_, _) =>
    case LoopReadHead(_, _, _, _) =>
    case LoopDeliver =>
    case TripReturns(_) =>
    case BodyEof(_) =>
    case BodyClose(_, _) =>
    case FnPut(_, _) =>
    case FnTell(_) =>
    case FnClear(_) =>
    case AgainPut(_, _) =>
    case AgainTell(_) =>
  }

  lemma {:induction false} TwiceForGood(s: Conn, es: seq<Step>)
    requires ValidRun(s, es) && FiredTwice(s)
    ensures FiredTwice(Run(s, es))
    decreases |es|
  {
    if es != [] {
      var i :| 0 <= i < |s.trips| && s.trips[i].fires >= 2;
      FiresGrow(s, es[0], i);
      TwiceForGood(Next(s, es[0]), es[1..]);
    }
  }

  /** In every interleaving: no callback runs twice, exactly if nobody, neither the
      read loop nor another user of the body, ends a body while its callback is
      being called. */
  lemma {:induction false} FiresOnceIff(s: Conn, es: seq<Step>)
    requires Owned(s) && ValidRun(s, es)
    ensures !FiredTwice(Run(s, es)) <==> CalmRun(s, es)
    decreases |es|
  {
    if es == [] {
      assert forall i :: 0 <= i < |s.trips| ==> TripOk(s.trips[i]);
    } else if Calm(s, es[0]) {
      StepKeeps(s, es[0]);
      FiresOnceIff(Next(s, es[0]), es[1..]);
    } else {
      RefireFires(s, es[0]);
      TwiceForGood(Next(s, es[0]), es[1..]);
    }
  }

  // ---------------------------------------------------------------------
  // What a caller can do about it
  // ---------------------------------------------------------------------

  /** A body whose callback has run was closed. */
  predicate EndedByClose(s: Conn)
  {
    forall i :: 0 <= i < |s.trips| ==> ClosedTrip(s.trips[i])
  }

  predicate NoEof(es: seq<Step>)
  {
    forall i :: 0 <= i < |es| ==> !es[i].BodyEof?
  }

  predicate ClosedTrip(t: Trip)
  {
    t.fn.Called? || t.fn.Telling? || t.fn.Told? ==> t.isClosed
  }

  lemma CloseStepAt(s: Conn, e: Step, i: nat)
    requires Enabled(s, e) && !e.BodyEof? && Has(Next(s, e), i)
    requires Has(s, i) ==> ClosedTrip(s.trips[i])
    ensures ClosedTrip(Next(s, e).trips[i])
  {
    match e
    case Hand =>
    case Drop =>
    case Count(_) =>
    case WriteRequest(_, _) =>
    case LoopPeek =>
    case LoopReceive =>
    case LoopCloseLast(_, _) =>
    case LoopReadHead(_, _, _, _) =>
    case LoopDeliver =>
    case TripReturns(_) =>
    case BodyClose(_, _) =>
    case FnPut(_, _) =>
    case FnTell(_) =>
    case FnClear(_) =>
    case AgainPut(_, _) =>
    case AgainTell(_) =>
  }

  lemma CloseStep(s: Conn, e: Step)
    requires Enabled(s, e) && EndedByClose(s) && !e.BodyEof?
    ensures EndedByClose(Next(s, e))
  {
    var u := Next(s, e);
    forall i | 0 <= i < |u.trips| ensures ClosedTrip(u.trips[i]) {
      CloseStepAt(s, e, i);
    }
  }

  lemma ClosedIsCalm(s: Conn, e: Step)
    requires Owned(s) && Enabled(s, e) && EndedByClose(s) && !e.BodyEof?
    ensures Calm(s, e)
  {
    if e.LoopCloseLast? && 0 <= s.lastbody < |s.trips| {
      assert TripOk(s.trips[s.lastbody]) && ClosedTrip(s.trips[s.lastbody]);
    }
    if e.BodyClose? {
      assert ClosedTrip(s.trips[e.r]);
    }
  }

  /** If bodies are closed before they are read to their end, every run is calm. */
  lemma {:induction false} ClosingIsCalm(s: Conn, es: seq<Step>)
    requires Owned(s) && EndedByClose(s) && ValidRun(s, es) && NoEof(es)
    ensures CalmRun(s, es)
    decreases |es|
  {
    if es != [] {
      assert !es[0].BodyEof?;
      ClosedIsCalm(s, es[0]);
      StepKeeps(s, es[0]);
      CloseStep(s, es[0]);
      ClosingIsCalm(Next(s, es[0]), es[1..]);
    }
  }

  /** So from a fresh connection: whoever ends bodies by Close is safe. */
  lemma CloseIsSafe(es: seq<Step>)
    requires ValidRun(DIALLED, es) && NoEof(es)
    ensures var s := Run(DIALLED, es);
            && !FiredTwice(s) && s.pooled <= 1
            && (Enabled(s, Hand) ==> forall i :: 0 <= i < |s.trips| ==> Finished(s.trips[i]))
  {
    assert TripOk(NEW_TRIP);
    ClosingIsCalm(DIALLED, es);
    HandedOutFinished(es);
    FiresOnceIff(DIALLED, es);
  }

  /** The connection after one request whose body was read to its end, its
      callback not yet cleared: idle and cached. */
  const ONE_USE := Conn(1, false, true, 0, [], Peek, 0, [Trip(Gone, true, true, true, Told, false, true, 1, 0, 0, false)])

  lemma Before(s: Conn, e: Step, es: seq<Step>) returns (fs: seq<Step>)
    requires Enabled(s, e) && ValidRun(Next(s, e), es)
    ensures fs == [e] + es && ValidRun(s, fs) && Run(s, fs) == Run(Next(s, e), es)
  {
    fs := [e] + es;
    assert fs[1..] == es;
  }

  const HEAD_READ := Conn(0, false, true, 1, [], Deliver(0), 0, [Trip(Sent, true, true, false, Armed, false, false, 0, 0, 0, false)])

  lemma ReadTheHead() returns (es: seq<Step>)
    ensures ValidRun(DIALLED, es) && Run(DIALLED, es) == HEAD_READ
  {
    var s1 := Next(DIALLED, Count(0));
    var s2 := Next(s1, WriteRequest(0, true));
    var s3 := Next(s2, LoopPeek);
    var s4 := Next(s3, LoopReceive);
    var s5 := Next(s4, LoopReadHead(true, true, false, true));
    es := [];
    es := Before(s4, LoopReadHead(true, true, false, true), es);
    es := Before(s3, LoopReceive, es);
    es := Before(s2, LoopPeek, es);
    es := Before(s1, WriteRequest(0, true), es);
    es := Before(DIALLED, Count(0), es);
  }

  /** A step with its outcome written out. */
  lemma Lead(s: Conn, e: Step, u: Conn, es: seq<Step>) returns (fs: seq<Step>)
    requires Enabled(s, e) && Next(s, e) == u && ValidRun(u, es)
    ensures ValidRun(s, fs) && Run(s, fs) == Run(u, es)
  {
    fs := Before(s, e, es);
  }

  lemma ReadTheBody() returns (es: seq<Step>)
    ensures ValidRun(HEAD_READ, es) && Run(HEAD_READ, es) == ONE_USE
  {
    var t := Trip(Gone, true, true, true, Called, false, false, 1, 0, 0, false);
    var s1 := Conn(0, false, true, 1, [], AwaitBody(0), 0, [Trip(Answered, true, true, false, Armed, false, false, 0, 0, 0, false)]);
    var s2 := Conn(0, false, true, 0, [], AwaitBody(0), 0, [Trip(Gone, true, true, false, Armed, false, false, 0, 0, 0, false)]);
    var s3 := Conn(0, false, true, 0, [], AwaitBody(0), 0, [t]);
    var s4 := Conn(1, false, true, 0, [], AwaitBody(0), 0, [t.(fn := Telling, released := true)]);
    es := [];
    es := Lead(s4, FnTell(0), ONE_USE, es);
    es := Lead(s3, FnPut(0, true), s4, es);
    es := Lead(s2, BodyEof(0), s3, es);
    es := Lead(s1, TripReturns(0), s2, es);
    es := Lead(HEAD_READ, LoopDeliver, s1, es);
  }

  /** The body read to its end, its callback just called. */
  const AT_EOF := Conn(0, false, true, 0, [], AwaitBody(0), 0, [Trip(Gone, true, true, true, Called, false, false, 1, 0, 0, false)])

  lemma ReadToEof() returns (es: seq<Step>)
    ensures ValidRun(HEAD_READ, es) && Run(HEAD_READ, es) == AT_EOF
  {
    var s1 := Conn(0, false, true, 1, [], AwaitBody(0), 0, [Trip(Answered, true, true, false, Armed, false, false, 0, 0, 0, false)]);
    var s2 := Conn(0, false, true, 0, [], AwaitBody(0), 0, [Trip(Gone, true, true, false, Armed, false, false, 0, 0, 0, false)]);
    es := [];
    es := Lead(s2, BodyEof(0), AT_EOF, es);
    es := Lead(s1, TripReturns(0), s2, es);
    es := Lead(HEAD_READ, LoopDeliver, s1, es);
  }

  const TWICE := Trip(Gone, true, true, true, Called, true, false, 2, 1, 0, false)
  const BOTH_PUT := Conn(2, false, true, 0, [], AwaitBody(0), 0,
                         [Trip(Gone, true, true, true, Telling, true, true, 2, 0, 1, false)])

  lemma PutByBoth() returns (es: seq<Step>)
    ensures ValidRun(AT_EOF, es) && Run(AT_EOF, es) == BOTH_PUT
  {
    var s1 := AT_EOF.(trips := [TWICE]);
    var s2 := AT_EOF.(pooled := 1, trips := [TWICE.(fn := Telling, released := true)]);
    es := [];
    es := Lead(s2, AgainPut(0, true), BOTH_PUT, es);
    es := Lead(s1, FnPut(0, true), s2, es);
    es := Lead(AT_EOF, BodyClose(0, true), s1, es);
  }

  lemma HandedToTwo() returns (es: seq<Step>)
    ensures ValidRun(BOTH_PUT, es)
    ensures var s := Run(BOTH_PUT, es); |s.trips| == 3 && !s.trips[1].head && !s.trips[2].head && s.trips[0].fires == 2
  {
    var s4 := BOTH_PUT.(pooled := 1, trips := BOTH_PUT.trips + [NEW_TRIP]);
    var s5 := s4.(pooled := 0, trips := s4.trips + [NEW_TRIP]);
    es := [];
    es := Lead(s4, Hand, s5, es);
    es := Lead(BOTH_PUT, Hand, s4, es);
  }

  /** One goroutine's Read has seen the end of the body, another one closes it
      before the callback is done: two requests hold the connection at once. */
  lemma ClosedWhileReadReached() returns (es: seq<Step>)
    ensures ValidRun(DIALLED, es)
    ensures var s := Run(DIALLED, es); |s.trips| == 3 && !s.trips[1].head && !s.trips[2].head && s.trips[0].fires == 2
  {
    var a := ReadTheHead();
    var b := ReadToEof();
    var c := PutByBoth();
    var d := HandedToTwo();
    RunAppend(DIALLED, a, b);
    RunAppend(DIALLED, a + b, c);
    RunAppend(DIALLED, a + b + c, d);
    es := a + b + c + d;
  }

  const FIRST := Trip(Gone, true, true, true, Told, false, true, 1, 0, 0, false)

  lemma SecondSent() returns (es: seq<Step>)
    ensures ValidRun(ONE_USE, es)
    ensures Run(ONE_USE, es) == Conn(0, false, true, 1, [1], Peek, 0, [FIRST, NEW_TRIP.(pc := Sent)])
  {
    var s1 := Conn(0, false, true, 0, [], Peek, 0, [FIRST, NEW_TRIP]);
    var s2 := Conn(0, false, true, 1, [], Peek, 0, [FIRST, NEW_TRIP.(pc := Counted)]);
    var s3 := Conn(0, false, true, 1, [1], Peek, 0, [FIRST, NEW_TRIP.(pc := Sent)]);
    es := [];
    es := Lead(s2, WriteRequest(1, true), s3, es);
    es := Lead(s1, Count(1), s2, es);
    es := Lead(ONE_USE, Hand, s1, es);
  }

  const TWO := [FIRST, NEW_TRIP.(pc := Sent)]
  const CLOSING := Conn(0, false, true, 1, [], CloseLast(1), 0, TWO)
  const AGAIN := Conn(1, false, true, 1, [], Stuck, 0, [FIRST.(fires := 2, isClosed := true), NEW_TRIP.(pc := Sent)])

  lemma FiresAgain()
    ensures Enabled(CLOSING, LoopCloseLast(true, true)) && Next(CLOSING, LoopCloseLast(true, true)) == AGAIN
  {
  }

  lemma HandedAgain() returns (es: seq<Step>)
    ensures ValidRun(CLOSING, es)
    ensures var s := Run(CLOSING, es); |s.trips| == 3 && !s.trips[1].head && s.trips[0].fires == 2
  {
    var last := Conn(0, false, true, 1, [], Stuck, 0, AGAIN.trips + [NEW_TRIP]);
    FiresAgain();
    es := [];
    es := Lead(AGAIN, Hand, last, es);
    es := Lead(CLOSING, LoopCloseLast(true, true), AGAIN, es);
  }

  lemma SecondReceived() returns (es: seq<Step>)
    ensures ValidRun(Conn(0, false, true, 1, [1], Peek, 0, TWO), es)
    ensures Run(Conn(0, false, true, 1, [1], Peek, 0, TWO), es) == CLOSING
  {
    var s4 := Conn(0, false, true, 1, [1], Receive, 0, TWO);
    es := [];
    es := Lead(s4, LoopReceive, CLOSING, es);
    es := Lead(Conn(0, false, true, 1, [1], Peek, 0, TWO), LoopPeek, s4, es);
  }

  lemma SecondUse() returns (es: seq<Step>)
    ensures ValidRun(ONE_USE, es)
    ensures var s := Run(ONE_USE, es); |s.trips| == 3 && !s.trips[1].head && s.trips[0].fires == 2
  {
    var a := SecondSent();
    var b := SecondReceived();
    var c := HandedAgain();
    RunAppend(ONE_USE, a, b);
    RunAppend(ONE_USE, a + b, c);
    es := a + b + c;
  }

  /** And such a run exists: a third request is handed the connection while the
      second has not even read its response head. */
  lemma DoubleUseReached() returns (es: seq<Step>)
    ensures ValidRun(DIALLED, es)
    ensures var s := Run(DIALLED, es); |s.trips| == 3 && !s.trips[1].head && s.trips[0].fires == 2
  {
    var a := ReadTheHead();
    var b := ReadTheBody();
    var c := SecondUse();
    RunAppend(DIALLED, a, b);
    RunAppend(DIALLED, a + b, c);
    es := a + b + c;
  }

  lemma {:induction false} RunAppend(s: Conn, a: seq<Step>, b: seq<Step>)
    requires ValidRun(s, a) && ValidRun(Run(s, a), b)
    ensures ValidRun(s, a + b) && Run(s, a + b) == Run(Run(s, a), b)
    decreases |a|
  {
    if a == [] {
      assert a + b == b;
    } else {
      RunAppend(Next(s, a[0]), a[1..], b);
      var fs := Before(s, a[0], a[1..] + b);
      assert fs == a + b;
    }
  }
}
