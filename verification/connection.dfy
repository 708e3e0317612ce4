/** One connection served request after request: handlers make any calls they
    like, and the client reads back what they wrote. */
module Connection {
  import opened Text
  import opened Numerals
  import opened Chunked
  import opened Head
  import opened Transfer
  import opened Responses
  import opened Server
  import opened Exchange
  import Requests

  /** What a handler, or a MaxBytesReader on its behalf, may do to a response. */
  datatype Call = DoWriteHeader(code: int) | DoWrite(data: string) | DoFlush | DoRequestTooLarge

  /** The bytes a handler offers in all; a Go int64 counts them. */
  function Offered(calls: seq<Call>): (n: nat)
  {
    if calls == [] then 0
    else
      var last := calls[|calls| - 1];
      Offered(calls[..|calls| - 1]) + if last.DoWrite? then |last.data| else 0
  }

  predicate GoodCall(c: Call)
  {
    c.DoWriteHeader? ==> IsStatus(c.code)
  }

  /** A request, the header its handler leaves before its first call, and the
      calls it then makes. */
  datatype Job = Job(req: Req, header: Header, calls: seq<Call>)

  predicate GoodJob(j: Job)
  {
    && ProtoAtLeast(j.req, 1, 0) && GoodKeys(j.header)
    && (forall c :: c in j.calls ==> GoodCall(c))
    && Offered(j.calls) < INT64_LIMIT
  }

  // ---------------------------------------------------------------------
  // What a handler's calls come to, told without any buffering
  // ---------------------------------------------------------------------

  /** Whether the head is decided and with which status, how many bytes were
      offered, and the data of the writes that returned no error. */
  datatype Script = Script(wrote: bool, status: int, written: int, body: string)

  predicate Bodyless(r: Req, status: int)
  {
    r.meth == "HEAD" || status == STATUS_NOT_MODIFIED
  }

  /** The number of bytes that will be accepted, -1 for any number. */
  function Limit(j: Job, status: int): (n: int)
  {
    if Bodyless(j.req, status) || !LengthStands(j.header) then -1 else LengthOf(j.header)
  }

  function Headed(s: Script, code: int): (t: Script)
  {
    if s.wrote then s else s.(wrote := true, status := code)
  }

  function Offer(j: Job, s: Script, data: string): (t: Script)
  {
    if data == "" || Bodyless(j.req, s.status) then s
    else
      var n := s.written + |data|;
      if Limit(j, s.status) != -1 && n > Limit(j, s.status) then s.(written := n)
      else s.(written := n, body := s.body + data)
  }

  function Called(j: Job, s: Script, c: Call): (t: Script)
  {
    match c
    case DoWriteHeader(code) => Headed(s, code)
    case DoWrite(data) => Offer(j, Headed(s, STATUS_OK), data)
    case DoFlush => Headed(s, STATUS_OK)
    case DoRequestTooLarge => s
  }

  function Played(j: Job, calls: seq<Call>): (s: Script)
  {
    if calls == [] then Script(false, 0, 0, "")
    else Called(j, Played(j, calls[..|calls| - 1]), calls[|calls| - 1])
  }

  /** No more is accepted than was offered, under a status that was asked for. */
  lemma {:induction false} PlayedBounds(j: Job, calls: seq<Call>)
    requires forall c :: c in calls ==> GoodCall(c)
    ensures |Played(j, calls).body| <= Offered(calls)
    ensures Played(j, calls).wrote ==> IsStatus(Played(j, calls).status)
  {
    if calls != [] {
      var init, last := calls[..|calls| - 1], calls[|calls| - 1];
      assert last in calls && forall c :: c in init ==> c in calls;
      PlayedBounds(j, init);
    }
  }

  function Outcome(j: Job): (s: Script)
  {
    Headed(Played(j, j.calls), STATUS_OK)
  }

  // ---------------------------------------------------------------------
  // The response object plays the script
  // ---------------------------------------------------------------------

  ghost function ScriptOf(w: Response): (s: Script)
    reads w
  {
    Script(w.wroteHeader, if w.wroteHeader then w.status else 0, w.written, w.accepted)
  }

  ghost predicate Serves(w: Response, j: Job)
  {
    w.req == j.req && w.hollow == Hollow(j.header) && w.ctype == Get(j.header, CONTENT_TYPE) && w.trailer == Get(j.header, "Trailer") && w.announced == LengthOf(j.header) && w.stands == LengthStands(j.header)
  }

  method InvokeWrite(w: Response, j: Job, data: string) returns (more: string)
    requires w.Valid() && w.Ready() && w.Standing() && Serves(w, j)
    modifies w
    ensures w.Valid() && w.Ready() && w.Standing()
    ensures ScriptOf(w) == Offer(j, Headed(old(ScriptOf(w)), STATUS_OK), data)
    ensures w.accepted == old(w.accepted) + more
  {
    more := "";
    var n, err := w.Write(data);
    assert w.contentLength == Limit(j, w.status);
    if err.Nil? {
      more := data;
    }
  }

  method Invoke(w: Response, j: Job, c: Call) returns (more: string)
    requires w.Valid() && w.Ready() && w.Standing() && Serves(w, j) && GoodCall(c)
    modifies w
    ensures w.Valid() && w.Ready() && w.Standing()
    ensures ScriptOf(w) == Called(j, old(ScriptOf(w)), c)
    ensures w.accepted == old(w.accepted) + more
  {
    more := "";
    match c
    case DoWriteHeader(code) => w.WriteHeader(code);
    case DoWrite(data) => more := InvokeWrite(w, j, data);
    case DoFlush => w.Flush();
    case DoRequestTooLarge => w.RequestTooLarge();
  }

  /** The handler's calls in order; `body` is the data of the writes that
      returned no error. */
  method RunHandler(w: Response, j: Job) returns (body: string)
    requires w.Valid() && w.Ready() && w.Standing() && Serves(w, j) && GoodJob(j)
    requires !w.wroteHeader && w.accepted == "" && w.written == 0
    modifies w
    ensures w.Valid() && w.Ready() && w.Standing() && w.accepted == body
    ensures ScriptOf(w) == Played(j, j.calls)
  {
    body := "";
    for i := 0 to |j.calls|
      invariant w.Valid() && w.Ready() && w.Standing() && w.accepted == body
      invariant ScriptOf(w) == Played(j, j.calls[..i])
    {
      var more := Invoke(w, j, j.calls[i]);
      assert j.calls[..i + 1][..i] == j.calls[..i];
      body := body + more;
    }
    assert j.calls[..|j.calls|] == j.calls;
  }

  ghost function ReplyOf(w: Response): (y: Reply)
    reads w
  {
    Reply(w.req, w.env, w.status, w.header, w.sent, w.env.detect(w.body), w.chunking, w.declared, w.contentLength, w.pieces)
  }

  /** The body is delimited by chunks or a declared length, or there is none. */
  predicate Framable(j: Job, status: int)
  {
    ProtoAtLeast(j.req, 1, 1) || Bodyless(j.req, status) || LengthStands(j.header)
  }

  /** The sniffer never answers "multipart/byteranges". */
  ghost predicate PlainSniffer(e: Env)
  {
    forall s :: !IsByteranges(Clean(e.detect(s)))
  }

  predicate PlainType(h: Header)
  {
    !IsByteranges(Clean(Get(h, CONTENT_TYPE)))
  }

  /** A reply holds what the job's calls come to, framed as the job allows. */
  predicate Answers(y: Reply, j: Job)
  {
    && Complete(y) && y.req == j.req
    && Concat(y.pieces) == Outcome(j).body && y.status == Outcome(j).status
    && (y.declared ==> y.length == LengthOf(j.header))
    && (Framable(j, y.status) ==> NoBody(y) || y.declared || y.chunking)
    && (Outcome(j).body != "" && Http11(y) && !LengthStands(j.header) ==> y.chunking)
    && (PlainType(j.header) && !NoBody(y) ==> !Multipart(y))
    && Get(y.header, "Trailer") == Get(j.header, "Trailer")
    && (HollowCoding(y) <==> y.status == STATUS_NOT_MODIFIED && Hollow(j.header))
  }

  /** The next reply can be found: this one is delimited, unless its handler
      announced the length that the code takes for none. */
  predicate Findable(y: Reply, j: Job)
  {
    Delimited(y) || LengthOf(j.header) == -1
  }

  /** One request served to the end. */
  method ServeOne(env: Env, j: Job) returns (out: seq<Token>, kept: bool, body: string, ghost y: Reply)
    requires GoodEnv(env) && PlainSniffer(env) && GoodJob(j)
    ensures body == Outcome(j).body
    ensures Answers(y, j) && y.env == env && Bytes(env, out) == ReplyBytes(y)
    ensures kept ==> Findable(y, j)
  {
    var w := new Response(j.req, env, j.header);
    body := RunHandler(w, j);
    PlayedBounds(j, j.calls);
    w.FinishRequest();
    out, kept := w.out, !w.closeAfterReply;
    y := ReplyOf(w);
    FinishedIsComplete(w);
    ReplyAnswers(y, j);
  }

  lemma FinishedIsComplete(w: Response)
    requires w.Finished() && GoodEnv(w.env) && IsStatus(w.status) && |w.accepted| < INT64_LIMIT
    ensures Complete(ReplyOf(w)) && Bytes(w.env, w.out) == ReplyBytes(ReplyOf(w)) && Concat(w.pieces) == w.accepted
    ensures !w.closeAfterReply ==> Delimited(ReplyOf(w)) || (w.declared && w.contentLength == -1)
  {
    Requests.PiecesSized(w.pieces);
  }

  lemma ReplyAnswers(y: Reply, j: Job)
    requires Complete(y) && y.req == j.req
    requires Concat(y.pieces) == Outcome(j).body && y.status == Outcome(j).status
    requires y.declared ==> y.length == LengthOf(j.header)
    requires Framable(j, y.status) ==> NoBody(y) || y.declared || y.chunking
    requires Outcome(j).body != "" && Http11(y) && !LengthStands(j.header) ==> y.chunking
    requires !IsByteranges(Clean(y.kind)) && (!NoBody(y) ==> Get(y.header, CONTENT_TYPE) == Get(j.header, CONTENT_TYPE))
    requires Get(y.header, "Trailer") == Get(j.header, "Trailer")
    requires y.status == STATUS_NOT_MODIFIED ==> (Has(y.header, TRANSFER_ENCODING) <==> Hollow(j.header))
    ensures Answers(y, j)
  {
    if PlainType(j.header) && !NoBody(y) {
      TypeSent(y);
    }
    CodingSent(y);
  }

  // ---------------------------------------------------------------------
  // All the replies of a connection
  // ---------------------------------------------------------------------

  function WireOf(replies: seq<Reply>): (w: string)
  {
    if replies == [] then "" else ReplyBytes(replies[0]) + WireOf(replies[1..])
  }

  /** Reading reply after reply from `w` gives these bodies, each starting where
      the one before ended, and nothing is left over. */
  predicate ReadsAll(w: string, replies: seq<Reply>)
    decreases |replies|
  {
    if replies == [] then w == ""
    else
      var got := ReceiveAt(replies[0].req.meth, w);
      && got.Received? && got.status == replies[0].status && got.header == CleanHeader(replies[0].sent)
      && got.body.data == Concat(replies[0].pieces) && got.body.status == Eof
      && ReadsAll(got.body.rest, replies[1..])
  }

  /** The last reply may be delimited by the end of the connection. */
  predicate LastOk(y: Reply)
  {
    Delimited(y) || (y.declared && y.length >= 0) || (!y.declared && !Multipart(y))
  }

  lemma {:induction false} RepliesRoundTrip(replies: seq<Reply>)
    requires forall i :: 0 <= i < |replies| ==> Complete(replies[i]) && Visible(replies[i])
    requires forall i :: 0 <= i < |replies| - 1 ==> Delimited(replies[i])
    requires replies != [] ==> LastOk(replies[|replies| - 1])
    ensures ReadsAll(WireOf(replies), replies)
  {
    if |replies| == 1 {
      var y := replies[0];
      LastReplyRoundTrip(y);
      assert replies[1..] == [] && WireOf(replies) == ReplyBytes(y) + "" == ReplyBytes(y);
    } else if |replies| > 1 {
      RepliesRoundTrip(replies[1..]);
      ReplyRoundTrip(replies[0], WireOf(replies[1..]));
    }
  }

  /** Replies to the first jobs, in order, all but the last delimited. */
  predicate Served(jobs: seq<Job>, replies: seq<Reply>)
    decreases |replies|
  {
    var n := |replies|;
    n <= |jobs| &&
    (n > 0 ==>
       && Answers(replies[n - 1], jobs[n - 1])
       && (n > 1 ==> Findable(replies[n - 2], jobs[n - 2]))
       && Served(jobs, replies[..n - 1]))
  }

  lemma {:induction false} ServedMore(jobs: seq<Job>, replies: seq<Reply>, y: Reply)
    requires Served(jobs, replies) && |replies| < |jobs| && Answers(y, jobs[|replies|])
    requires replies != [] ==> Findable(replies[|replies| - 1], jobs[|replies| - 1])
    ensures Served(jobs, replies + [y])
  {
    assert (replies + [y])[..|replies|] == replies;
  }

  lemma {:induction false} ServedAt(jobs: seq<Job>, replies: seq<Reply>, i: nat)
    requires Served(jobs, replies) && i < |replies|
    ensures Answers(replies[i], jobs[i])
    ensures i < |replies| - 1 ==> Findable(replies[i], jobs[i])
    decreases |replies|
  {
    var n := |replies|;
    if i < n - 1 {
      ServedAt(jobs, replies[..n - 1], i);
      assert replies[i] == replies[..n - 1][i];
    }
  }

  lemma ServedFacts(jobs: seq<Job>, replies: seq<Reply>)
    requires Served(jobs, replies)
    ensures forall i :: 0 <= i < |replies| ==> Answers(replies[i], jobs[i])
    ensures forall i :: 0 <= i < |replies| - 1 ==> Findable(replies[i], jobs[i])
  {
    forall i | 0 <= i < |replies| ensures Answers(replies[i], jobs[i]) && (i < |replies| - 1 ==> Findable(replies[i], jobs[i])) {
      ServedAt(jobs, replies, i);
    }
  }

  /** What the program can see to beforehand: a length that is not negative, a
      method that both sides take for the same, a body that the client can tell
      from the rest or that ends the connection, a status that does not hide it,
      no forbidden trailer key, and no empty Transfer-Encoding on a 304. */
  predicate Readable(j: Job)
  {
    var o := Outcome(j);
    && LengthOf(j.header) >= 0
    && (AsksHead(j.req.meth) ==> j.req.meth == "HEAD")
    && (Framable(j, o.status) || PlainType(j.header))
    && TrailerOk(Clean(Get(j.header, "Trailer")))
    && (o.status == STATUS_NOT_MODIFIED && Hollow(j.header) ==> j.req.meth == "HEAD")
    && (o.body == "" || BodyAllowedForStatus(o.status) || (ProtoAtLeast(j.req, 1, 1) && !LengthStands(j.header)))
  }

  lemma ReadableAnswer(y: Reply, j: Job)
    requires Answers(y, j) && Readable(j)
    ensures Visible(y) && LastOk(y) && (Findable(y, j) ==> Delimited(y))
  {
  }

  /** Reading reply after reply from `w` gives the status and the accepted writes
      of each job, each reply starting where the one before ended, and nothing is
      left over. */
  predicate ReadsOutcomes(w: string, jobs: seq<Job>)
    decreases |jobs|
  {
    if jobs == [] then w == ""
    else
      var got := ReceiveAt(jobs[0].req.meth, w);
      && got.Received? && got.status == Outcome(jobs[0]).status
      && got.body.data == Outcome(jobs[0]).body && got.body.status == Eof
      && ReadsOutcomes(got.body.rest, jobs[1..])
  }

  predicate AllAnswer(replies: seq<Reply>, jobs: seq<Job>)
    decreases |jobs|
  {
    |replies| == |jobs| && (jobs == [] || (Answers(replies[0], jobs[0]) && AllAnswer(replies[1..], jobs[1..])))
  }

  lemma {:induction false} OutcomesRead(w: string, jobs: seq<Job>, replies: seq<Reply>)
    requires ReadsAll(w, replies) && AllAnswer(replies, jobs)
    ensures ReadsOutcomes(w, jobs)
    decreases |jobs|
  {
    if jobs != [] {
      OutcomesRead(ReceiveAt(jobs[0].req.meth, w).body.rest, jobs[1..], replies[1..]);
    }
  }

  lemma {:induction false} EachAnswers(replies: seq<Reply>, jobs: seq<Job>)
    requires |replies| <= |jobs| && forall i :: 0 <= i < |replies| ==> Answers(replies[i], jobs[i])
    ensures AllAnswer(replies, jobs[..|replies|])
    decreases |replies|
  {
    if replies != [] {
      EachAnswers(replies[1..], jobs[1..]);
      assert jobs[..|replies|][1..] == jobs[1..][..|replies| - 1];
    }
  }

  lemma ServedReadsAll(jobs: seq<Job>, replies: seq<Reply>)
    requires Served(jobs, replies) && forall i :: 0 <= i < |replies| ==> Readable(jobs[i])
    ensures ReadsAll(WireOf(replies), replies)
  {
    ServedFacts(jobs, replies);
    forall i | 0 <= i < |replies| ensures Complete(replies[i]) && Visible(replies[i]) && LastOk(replies[i])
      && (i < |replies| - 1 ==> Delimited(replies[i])) {
      ReadableAnswer(replies[i], jobs[i]);
    }
    RepliesRoundTrip(replies);
  }

  /** If all jobs served are readable, the client reads exactly what their
      handlers wrote, in order, with no byte between or left over. */
  lemma ConnectionReadsBack(jobs: seq<Job>, replies: seq<Reply>)
    requires Served(jobs, replies) && forall i :: 0 <= i < |replies| ==> Readable(jobs[i])
    ensures ReadsOutcomes(WireOf(replies), jobs[..|replies|])
  {
    ServedReadsAll(jobs, replies);
    ServedFacts(jobs, replies);
    EachAnswers(replies, jobs);
    OutcomesRead(WireOf(replies), jobs[..|replies|], replies);
  }

  /** The accepted writes of each job. */
  function BodiesOf(jobs: seq<Job>): (bs: seq<string>)
    ensures |bs| == |jobs|
  {
    if jobs == [] then [] else BodiesOf(jobs[..|jobs| - 1]) + [Outcome(jobs[|jobs| - 1]).body]
  }

  lemma BodiesMore(jobs: seq<Job>, n: nat)
    requires n < |jobs|
    ensures BodiesOf(jobs[..n + 1]) == BodiesOf(jobs[..n]) + [Outcome(jobs[n]).body]
  {
    assert jobs[..n + 1][..n] == jobs[..n];
  }

  /** The connection loop: it goes on until a reply closes the connection. If the
      jobs it gets to are readable, so is the connection. */
  method ServeConnection(env: Env, jobs: seq<Job>) returns (wire: seq<Token>, bodies: seq<string>)
    requires GoodEnv(env) && PlainSniffer(env) && GoodJobs(jobs)
    ensures |bodies| <= |jobs| && (jobs != [] ==> bodies != []) && bodies == BodiesOf(jobs[..|bodies|])
    ensures (forall i :: 0 <= i < |bodies| ==> Readable(jobs[i])) ==> ReadsOutcomes(Bytes(env, wire), jobs[..|bodies|])
  {
    ghost var replies: seq<Reply>;
    wire, bodies, replies := ServeAll(env, jobs);
    if forall i :: 0 <= i < |bodies| ==> Readable(jobs[i]) {
      ConnectionReadsBack(jobs, replies);
    }
  }

  predicate GoodJobs(jobs: seq<Job>)
  {
    forall j :: j in jobs ==> GoodJob(j)
  }

  method ServeAll(env: Env, jobs: seq<Job>) returns (wire: seq<Token>, bodies: seq<string>, ghost replies: seq<Reply>)
    requires GoodEnv(env) && PlainSniffer(env) && GoodJobs(jobs)
    ensures Served(jobs, replies) && Bytes(env, wire) == WireOf(replies)
    ensures |bodies| == |replies| <= |jobs| && (jobs != [] ==> bodies != []) && bodies == BodiesOf(jobs[..|bodies|])
  {
    wire, bodies, replies := [], [], [];
    var kept := true;
    while kept && |bodies| < |jobs|
      invariant |bodies| == |replies| <= |jobs| && (bodies == [] ==> kept)
      invariant Served(jobs, replies)
      invariant kept && replies != [] ==> Findable(replies[|replies| - 1], jobs[|replies| - 1])
      invariant Bytes(env, wire) == WireOf(replies)
      invariant bodies == BodiesOf(jobs[..|bodies|])
      decreases |jobs| - |bodies|
    {
      var body;
      wire, kept, body, replies := ServeNext(env, jobs, wire, replies, |bodies|);
      BodiesMore(jobs, |bodies|);
      bodies := bodies + [body];
    }
  }

  method ServeNext(env: Env, jobs: seq<Job>, before: seq<Token>, ghost replies: seq<Reply>, n: nat)
    returns (wire: seq<Token>, kept: bool, body: string, ghost more: seq<Reply>)
    requires GoodEnv(env) && PlainSniffer(env) && GoodJobs(jobs) && n < |jobs| && n == |replies|
    requires Served(jobs, replies) && (n > 0 ==> Findable(replies[n - 1], jobs[n - 1])) && Bytes(env, before) == WireOf(replies)
    ensures body == Outcome(jobs[n]).body && |more| == n + 1
    ensures Served(jobs, more) && (kept ==> Findable(more[n], jobs[n])) && Bytes(env, wire) == WireOf(more)
  {
    ghost var y;
    var out;
    assert jobs[n] in jobs;
    out, kept, body, y := ServeOne(env, jobs[n]);
    BytesAppend(env, before, out);
    WireOfAppend(replies, y);
    ServedMore(jobs, replies, y);
    wire, more := before + out, replies + [y];
  }

  lemma {:induction false} WireOfAppend(replies: seq<Reply>, y: Reply)
    ensures WireOf(replies + [y]) == WireOf(replies) + ReplyBytes(y)
  {
    if replies == [] {
      assert replies + [y] == [y] && [y][1..] == [];
    } else {
      WireOfAppend(replies[1..], y);
      assert (replies + [y])[1..] == replies[1..] + [y];
      Assoc(ReplyBytes(replies[0]), WireOf(replies[1..]), ReplyBytes(y));
    }
  }
}
