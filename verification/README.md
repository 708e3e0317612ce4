# Verification of the icecast source proxy and its HTTP stack

A Dafny model of the hard parts of the proxy: how HTTP messages are framed on a
connection, how a mount fails over from one live source to the next, how
pipelined and pooled connections keep order and ownership, and the FastCGI,
cookie and ServeMux codecs and tables beside them. `dafny verify dfyconfig.toml`
checks the whole project.

| file | models |
|---|---|
| `text.dfy`, `numerals.dfy` | octet strings, `strings` and `strconv` as far as the rest uses them |
| `chunked.dfy`, `truncated.dfy` | the chunked reader and writer (`http/chunked.go`) against one whole-string decoder, and bodies cut short |
| `head.dfy`, `startline.dfy` | header blocks and first lines as printed and as parsed (`http/header.go`, `http/request.go`) |
| `transfer.dfy` | `readTransfer` and the `body` object (`http/transfer.go`) |
| `requests.dfy` | `transferWriter` for requests, and reading them back one after another |
| `responses.dfy`, `server.dfy` | status lines; the server's `response` object (`http/server.go`) |
| `exchange.dfy`, `connection.dfy`, `misread.dfy` | a whole reply and a whole connection, server side against reader side, and where they part |
| `failover.dfy`, `failoverruns.dfy` | one mount as a state machine and all its runs (`server/icecast.go`, `server/handlers.go`) |
| `icecast.dfy`, `processclients.dfy` | the manager's objects updated in place, and the event loop that takes those steps |
| `collection.dfy` | the collection of empty mounts over all runs |
| `serverconn.dfy` | `ServerConn` as interleaved steps (`http/httputil/persist.go`) |
| `idlepool.dfy`, `connowner.dfy` | the idle-connection cache, and who owns a connection (`http/transport.go`) |
| `fcgi.dfy`, `fcgichild.dfy` | FastCGI records, streams and name-value pairs; the child that reads them (`http/fcgi/`) |
| `cookie.dfy`, `setcookie.dfy` | both cookie printers and parsers (`http/cookie.go`) |
| `servemux.dfy`, `redirect.dfy` | the pattern table and its lookup, and where its redirects lead (`http/server.go`) |

The wire is a string whose characters stand for octets. The `bufio.Reader` is a
byte sequence that gives any non-empty prefix of what is left. State that the
source updates in place is in classes; each method is tied to a function or a
predicate about which the laws are proved. Protocols between goroutines are step
relations over all interleavings.

## Where the code falls short

Each of these is kept as the code has it, with the exact condition and an input
or a run that reaches it.

- A chunked body cut off inside the data of a chunk ends with a plain end of file
  (`http/chunked.go:73-78`): `Truncated.TruncatedEndsIff`. The body object notices
  the missing trailer, but says so once only; the next read reports a proper end:
  `Truncated.TruncatedEndsTwice`. A body cut short of its declared length always
  ends like a whole one: `Truncated.SizedEndsAlways`.
- A declared Content-Length of -1 is taken for "none" by the server, which keeps the
  connection, and refused by the reader: `Exchange.NegativeLengthRejected`,
  `Misread.NegativeLengthKept`.
- A body under a status that allows none is not seen by its reader if it was not
  chunked: `Exchange.ReplyRoundTrip`, `Misread.HiddenBodyKept`.
- ReadResponse spells the request's method in capitals and the server does not, so
  "head" is HEAD for one of them only: `Exchange.ReplyRoundTrip`,
  `Misread.LowerCaseHeadKept`.
- A Trailer header that names a framing key is printed by the server and refused by
  the reader, and so is an empty Transfer-Encoding on a 304:
  `Exchange.ReplyRoundTrip`, `Misread.BadTrailerKept`, `Misread.HollowCodingKept`.
- A request with a body, no length and the identity coding, or of HTTP/1.0, is not
  delimited: `Requests.RequestRoundTrip`, `Requests.OldRequestLost`.
- Host and User-Agent are printed as they are, so a newline in them makes another
  header line: `Requests.RequestRoundTrip`, `Requests.SmuggledFraming`.
- A mount whose live client leaves nobody behind never has a live client again,
  though the comment at `server/icecast.go:350-353` intends the mount to be reused:
  `FailoverRuns.LiveUnlessDeserted`.
- `HandleClientDisconnect` returns with its lock held when the mount has no entry
  (`server/handlers.go:31-40`): `FailoverRuns.LockLeaksIff`,
  `FailoverRuns.LockLeakReached`.
- A mount that empties twice is collected twice, the second time deleting a new
  mount of the same name with a live client on it. When a client that lost its mount
  that way leaves, the mount that has the name by then counts one client less than
  it has, and may be deleted under them: `Collection.LostIff`,
  `Icecast.StaleCollection`, `Icecast.StaleLeave`.
- `bodyEOFSignal` clears its callback only after the callback has told the read
  loop, so the read loop, or another user of the body, can run it a second time:
  `ConnOwner.FiresOnceIff`, `ConnOwner.DoubleUseReached`,
  `ConnOwner.ClosedWhileReadReached`, `IdlePool.HandedOutTwice`.
- Parameters of one FastCGI request that are cut short end the process, and with it
  every other request: `FcgiChild.CutTakesAllDownIff`, `FcgiChild.OtherRequestLost`.
- A pattern ending in two slashes redirects a whole subtree, to a path that is
  redirected to itself; a redirect for a host pattern misses:
  `ServeMuxes.MisdirectedIff`, `Redirects.RedirectLandsIff`,
  `Redirects.DoubleSlashLoops`, `Redirects.HostPatternMisses`.

## Model

| member | source | states |
|---|---|---|
| `Numerals.FormatParse` | http/chunked.go:51-51 | parsing undoes printing in both bases, for all 64-bit numbers |
| `Chunked.ChunkedWriter.Write` | http/chunked.go:143-165 | each write appends exactly one chunk, an empty write nothing |
| `Chunked.ChunkedWriter.Close` | http/chunked.go:167-170 | the final "0" line is appended and nothing else |
| `Chunked.DecodeUndoesWrites` | http/chunked.go:44-85 | for every list of writes and every suffix, decoding gives the concatenated data, end of file, and stops exactly after the final "0" line |
| `Chunked.PartOfChunk` | http/chunked.go:60-85 | stopping anywhere inside a chunk and going on decodes to the same bytes, status and rest |
| `Chunked.BufReader.ReadLine` | http/chunked.go:91-110 | a line is the text up to the first newline without the blanks at its end, the reader left behind the newline; no newline before the end, and too long a line, are errors, exactly when |
| `Chunked.ChunkedReader.BeginChunk` | http/chunked.go:44-58 | size, error and position after a chunk header agree with the whole-string rule on arbitrary bytes |
| `Chunked.ChunkedReader.Read` | http/chunked.go:60-85 | one read with any buffer takes a prefix of what the decoder gives and leaves the rest of it; an error is sticky and delivers nothing; without error there is progress |
| `Chunked.ChunkedReader.ReadSchedule` | http/chunked.go:60-85 | any schedule of positive buffer sizes delivers the same bytes, status and position |
| `Chunked.ChunkedReader.ReadAll` | http/chunked.go:60-85 | reading to the end is decoding the whole string |
| `Chunked.SendAndReceive` | http/chunked.go:143-170 | writes through the writer come back through the reader, the reader left at what follows |
| `Truncated.TruncatedEndsIff` | http/chunked.go:60-85 | a chunked body cut off anywhere before its final "0" line delivers a prefix of the data, and its end passes for a proper one exactly if the cut lies inside the data of a chunk |
| `Truncated.TruncatedBodyFails` | http/transfer.go:534-602 | the first end that the body object reports for a chunked message cut off anywhere is an error |
| `Truncated.TruncatedEndsTwice` | http/transfer.go:541-546 | reading on after that first end gives a proper end, and Close no error, exactly if the cut lies inside the data of a chunk or behind the final "0" line |
| `Truncated.EndsTwice` | http/transfer.go:534-632 | on any bytes: an error of the trailer is reported once and then a proper end, any other end again and again |
| `Truncated.SizedEndsAlways` | http/transfer.go:415-463 | a body cut short of its declared length always ends like a whole one |
| `Head.GetSet` | http/header.go:27-38 | Set is seen by Get, other keys unchanged |
| `Head.GetDel` | http/header.go:35-42 | Del hides one key, other keys unchanged |
| `Head.FieldsRoundTrip` | http/header.go:53-71 | every printed header is parsed into the same fields, keys in canonical spelling, values trimmed and free of newlines, the reader left after the blank line |
| `Head.HeadRoundTrip` | http/header.go:53-71 | the same for a start line and header together |
| `Transfer.ReadsChunked` | http/transfer.go:366-411 | a chunked coding makes the reader decode chunks |
| `Transfer.ReadsLength` | http/transfer.go:415-463 | a declared length limits the body to it, a negative one is an error |
| `Transfer.ReadsNoLength` | http/transfer.go:415-463 | a request that declares nothing has an empty body |
| `Transfer.Body.Read` | http/transfer.go:534-548 | reads refine the pure body decoder of the chosen framing, trailer included; what reads after the end say; after Close they fail and consume nothing |
| `Transfer.SeeUpcomingDoubleCrlf` | http/transfer.go:555-568 | the growing peeks find a double CRLF exactly if one ends within the buffer, and take nothing |
| `Transfer.Body.ReadTrailer` | http/transfer.go:570-602 | two peeked bytes, ever longer peeks for a double CRLF, then the fields: together what the whole-string trailer rule says |
| `Transfer.Body.Close` | http/transfer.go:604-632 | closing early consumes the rest of the message and stops at the next one, unless the connection closes or the limit was hit |
| `Transfer.Body.ReadAndClose` | http/transfer.go:534-632 | after any reads and Close the reader is at the next message, and what was read is a prefix of the body |
| `Requests.WriteAcceptedIff` | http/transfer.go:187-228 | a body is written exactly if it is chunked, of undeclared length or as long as declared |
| `Requests.CopyChunks` | http/transfer.go:189-200 | however the body is delivered in pieces, the chunks hold it all |
| `Requests.WriteBody` | http/transfer.go:187-228 | success exactly if chunked, undeclared or of the declared length; then the bytes are the body, or decode to it, for any cutting of the body into pieces |
| `Requests.WriterState` | http/transfer.go:33-112 | the one-byte probe loses nothing; chunked or exact length follows, exactly for delimited requests |
| `Requests.FramingAgrees` | http/transfer.go:118-185 | the framing the reader picks from the written header is the one the writer used |
| `Requests.RequestRoundTrip` | http/request.go:302-360 | a written request is read back, method, URI, header and body, the reader at the next byte, exactly if method and URI hold no space or newline, Host and User-Agent no newline and no blank at their ends, and the body is delimited or absent |
| `StartLines.RequestLineRoundTrip` | http/request.go:321-321 | a printed request line is taken apart into method, URI and version exactly if neither part holds a space and there is a URI |
| `Requests.SmuggledFraming` | http/request.go:323-336 | a User-Agent that goes on to a line "Transfer-Encoding: chunked" makes the reader decode chunks, whatever was sent |
| `Requests.OldRequestLost` | http/transfer.go:187-228 | an HTTP/1.0 request with a body of undeclared length is written without error and never recovered |
| `Requests.RequestsRoundTrip` | http/transfer.go:260-357 | any list of requests back to back is recovered body by body |
| `Requests.Receive` | http/transfer.go:534-632 | any reads of the body and then Close leave the reader at the next request |
| `Requests.ReceiveAll` | http/transfer.go:534-632 | all requests of a connection are received in order, whether each body is read to its end or not |
| `Responses.StatusLineRoundTrip` | http/response.go:104-140 | a printed status line is parsed into the same version and code, by the parser of all versions |
| `Responses.Reception` | http/response.go:104-158 | a printed head followed by any bytes is received with the framing its header calls for |
| `Server.Response.Negotiate` | http/server.go:301-330 | the connection closes exactly if the client, the handler's header or the unread request body calls for it; the framing headers stay |
| `Server.Response.Describe` | http/server.go:332-352 | 304 loses the headers about a body, others keep them; the reply is sniffed exactly if it may have a body and has no type |
| `Server.Response.Choose` | http/server.go:354-389 | declared length, chunks or end of connection, exactly when, and a header that says so |
| `Server.Response.AnnounceClose` | http/server.go:394-396 | the header announces the close and still agrees with the framing |
| `Server.Response.WriteHeader` | http/server.go:275-415 | how a body is delimited follows from the request and the handler's header alone; the close decision from those and the unread request body, exactly; a second call changes nothing |
| `Server.Response.Sniff` | http/server.go:420-439 | the head is ended and held-back data released, nothing lost |
| `Server.Response.Write` | http/server.go:450-513 | exactly which writes are refused and why; accepted data joins the body, wherever the sniff buffer cuts it |
| `Server.Response.Flush` | http/server.go:559-565 | the head is sent, the data unchanged |
| `Server.Response.RequestTooLarge` | http/server.go:140-146 | the connection will close, and the header says so exactly if it is not yet sent |
| `Server.Response.FinishRequest` | http/server.go:515-557 | a complete reply; exactly when the connection is kept, in terms of what was decided, the HTTP/1.0 promise that takes it back, and a refused or short write |
| `Exchange.BytesReply` | http/server.go:398-413 | the bytes of all the writes are one head block, the encoded body and its end |
| `Exchange.ReplyRoundTrip` | http/server.go:515-557 | a delimited reply is read back as the concatenation of the accepted writes, the reader at the next reply, exactly if its status allows a body, or it was chunked, or it has none, the reader does not take its method for HEAD, its Trailer names no forbidden key, and no empty Transfer-Encoding stayed on a 304 |
| `Exchange.NegativeLengthRejected` | http/server.go:290-299 | the reader refuses a reply of declared length exactly if that is negative and the method does not pass for HEAD, or the Trailer names a forbidden key |
| `Exchange.LastReplyRoundTrip` | http/transfer.go:415-463 | the last reply of a connection is read back even if only its end delimits it or it fell short |
| `Connection.Invoke` | http/server.go:450-513 | one call does to the response object what it does to the script, errors and byte count included |
| `Connection.RunHandler` | http/server.go:669-669 | any call sequence leaves the response object where the unbuffered script says: status, bytes offered, data accepted |
| `Connection.ServeOne` | http/server.go:606-677 | whatever mix of WriteHeader, Write and Flush the handler calls, the reply carries the status and the accepted writes that an unbuffered reading of those calls gives; it is delimited if the connection is kept |
| `Connection.ServeConnection` | http/server.go:606-677 | over all exchanges on a connection, HTTP/1.0 replies without a length included: if each job is readable, a client reading reply after reply gets the status and exactly the accepted writes of every handler, each reply beginning where the one before ended, nothing left over |
| `Connection.RepliesRoundTrip` | http/response.go:104-158 | replies back to back are read one by one, each read ending where the next reply begins |
| `Connection.ConnectionReadsBack` | http/server.go:606-677 | the same about the replies as values |
| `Responses.LowerCaseAsksHead` | http/response.go:110-110 | "head" is HEAD for the reader and not for the server |
| `Misread.LowerCaseHeadKept` | http/response.go:110-110 | for such a method the server keeps the connection and the reader leaves the whole body to be taken for the next reply |
| `Misread.HiddenBodyKept` | http/server.go:365-377 | a status that allows no body, with a declared length and a write: the connection is kept and the body is taken for the next reply |
| `Misread.NegativeLengthKept` | http/server.go:290-299 | a declared length of -1 and a write: the connection is kept and no reader accepts the reply |
| `Misread.MinusOneHeader` | http/server.go:290-299 | and a header may say so |
| `Misread.BadTrailerKept` | http/transfer.go:488-503 | a Trailer that names Content-Length, Transfer-Encoding or Trailer: the connection is kept and no reader accepts the reply |
| `Misread.ForbiddenTrailer` | http/transfer.go:488-503 | and a header may say so |
| `Misread.HollowCodingKept` | http/server.go:332-341 | an empty Transfer-Encoding on a 304: the connection is kept and no reader accepts the reply |
| `Misread.EmptyCoding` | http/server.go:332-341 | and a header may hold one |
| `Failover.JoinRefines` | server/icecast.go:416-426 | queue and membership refine appending to the waiting list, or refusing when the queue is full |
| `Failover.PromotedStage` | server/icecast.go:297-316 | popping stale ids promotes exactly the head of the waiting list, or nobody |
| `Failover.LeaveRefines` | server/icecast.go:323-356 | a leave refines removal from the waiting list or promotion of its head |
| `Failover.WaitingIsTheRest` | server/icecast.go:297-356 | the waiting list is exactly the connected clients that are not live, each once |
| `Failover.NobodyLiveStays` | server/icecast.go:333-356 | without a live client no join and no leave gives one |
| `FailoverRuns.JoinTidy` | server/handlers.go:14-29 | the admin registry follows a join |
| `FailoverRuns.LeaveTidy` | server/handlers.go:31-69 | the admin registry follows a leave: promoted client to the front, leaver dropped |
| `FailoverRuns.StepInv` | server/icecast.go:46-117 | every step keeps the invariant that ties mount, registry and history |
| `FailoverRuns.EveryRunIsTidy` | server/icecast.go:297-356 | in every run: waiting list, order of arrival, registry entry equal to live client and waiting list, absent exactly if nobody is connected, queue within its limit |
| `FailoverRuns.EveryRunIsOrdered` | server/icecast.go:46-61 | in every run the live clients follow the order of arrival without repeats, and forwarded packets form one block per client in that order |
| `FailoverRuns.LiveUnlessDeserted` | server/icecast.go:333-356 | a mount has a live client exactly as long as its live client never left nobody behind |
| `FailoverRuns.LockLeaksIff` | server/handlers.go:31-40 | the registry lock is left held exactly if a client is refused by a full queue while nobody is connected |
| `FailoverRuns.QueueOfTheDeparted` | server/icecast.go:416-426 | on a deserted mount, clients that come and go fill the queue |
| `FailoverRuns.LockLeakReached` | server/handlers.go:31-40 | a run that leaves the lock held |
| `Icecast.ClientContainer.Add` | server/client.go:204-211 | map entry and counter, with 32-bit wrap-around |
| `Icecast.ClientContainer.Remove` | server/client.go:214-220 | map entry and counter, with 32-bit wrap-around |
| `Icecast.ClientContainer.GetByID` | server/client.go:194-201 | found exactly if a member |
| `Icecast.Registry.HandleClientConnect` | server/handlers.go:14-29 | the client is appended to its mount's list, other lists unchanged |
| `Icecast.Registry.HandleClientDisconnect` | server/handlers.go:31-55 | the client is taken out, an empty list deleted, and the lock left held exactly if there was no list |
| `Icecast.Registry.HandleClientLive` | server/handlers.go:57-69 | the client moves to the front, the order of the others kept |
| `Icecast.Manager.SwapLiveClient` | server/icecast.go:262-291 | the active client and the registry change together, or neither |
| `Icecast.Manager.NextLiveClient` | server/icecast.go:297-316 | the popping loop is the promotion of the state machine |
| `Icecast.Manager.RemoveFrom` | server/icecast.go:333-347 | a leave on the objects is a leave of the state machine, registry and counter included |
| `Icecast.Manager.RemoveClient` | server/icecast.go:323-356 | panics exactly if no mount of the name is filed; the mount that has the name counts one client less, whether or not it was the client's, and is registered for collection when it counts none |
| `Icecast.Manager.AddTo` | server/icecast.go:416-426 | the client is queued if there is room, and a member either way |
| `Icecast.Manager.ReceiveFirst` | server/icecast.go:360-414 | the first client creates the mount and is live |
| `Icecast.Manager.ReceiveNext` | server/icecast.go:70-90 | a join on the objects is a join of the state machine; a refused client leaves no trace but a collection |
| `Icecast.Manager.Deliver` | server/icecast.go:46-61 | a packet is forwarded exactly if its client is the active one of a filed mount |
| `Icecast.Manager.Collect` | server/icecast.go:91-117 | a mount that counts no clients is deleted by its name; connected clients lose their mount exactly if the mount of that name holds some: another one, or the same with a counter that is off |
| `Icecast.CollectTwice` | server/icecast.go:91-117 | a mount registered twice takes a later mount of its name, and its live client, with it |
| `Icecast.StaleCollection` | server/icecast.go:349-355 | that situation arises from three clients on one mount name |
| `Icecast.LateLeave` | server/client.go:214-217 | a client that has lost its mount leaves while another is live on a new mount of the name: that mount counts none, is registered and deleted under its live client |
| `Icecast.StaleLeave` | server/icecast.go:323-356 | and that situation arises |
| `ProcessClients.ProcessMount` | server/icecast.go:40-90 | the event loop on the objects, over every enabled event list: mount, registry entry and forwarded packets are those of the run model, until an event leaves the registry lock held |
| `Collection.LosesIff` | server/icecast.go:91-117 | with the counter beside the map, and leaves of clients that have lost their mount: a step strands connected clients exactly if it collects a mount that counts none, whose name a mount holding clients has by now, be it another or the same |
| `Collection.LostIff` | server/icecast.go:91-117 | over every run of joins, refusals, leaves and collections, a client is ever stranded exactly if such a collection happens |
| `Collection.FreshLosesNobody` | server/icecast.go:349-355 | as long as no mount is registered while it still waits to be collected, nobody is ever stranded |
| `Collection.RegisteredOnceLosesNobody` | server/icecast.go:349-355 | as long as every mount is registered at most once, nobody is ever stranded |
| `ServerConn.StepKeeps` | http/httputil/persist.go:86-158 | every step of Read, Write and Hijack keeps the turnstile invariant |
| `ServerConn.NextToAnswer` | http/httputil/persist.go:171-199 | whoever has the response turn holds the first unanswered request |
| `ServerConn.ResponsesInOrder` | http/httputil/persist.go:171-219 | in every interleaving the responses on the wire answer a prefix of the requests read, in order, each once, and nwritten stays at most nread |
| `ServerConn.PipeCountUnreachable` | http/httputil/persist.go:189-199 | the pipe count error cannot happen |
| `ServerConn.TurnsInStep` | http/httputil/persist.go:86-158 | turns are ended only by their holder, and no id is in two places |
| `ServerConn.OnlyTheUnansweredStall` | http/httputil/persist.go:86-219 | in every interleaving each id handed out and not done is in exactly one place, and the response turn is held up by nothing but an unanswered request: whoever holds its id can go on |
| `IdlePool.Transport.PutIdleConn` | http/transport.go:246-271 | cached exactly if reuse is on, it is sound and there is room; otherwise broken; lists stay non-empty, bounded and under their own key, and without repeats exactly if it was not cached before |
| `IdlePool.Transport.GetIdleConn` | http/transport.go:273-299 | the newest sound connection, removed; None only if all were broken; terminates |
| `IdlePool.Transport.CloseIdleConnections` | http/transport.go:189-202 | the cache is empty and all it held is closed |
| `IdlePool.HandedOutTwice` | http/transport.go:246-299 | a connection put into the cache twice is given to two requests |
| `ConnOwner.StepKeeps` | http/transport.go:539-634 | every step of callers, read loop, users of the body and its callback keeps ownership, unless a callback is called while it is being called |
| `ConnOwner.HandedOutFinished` | http/transport.go:651-688 | in every such interleaving a connection is handed out only when all earlier requests have their head read and their body ended or closed, and callbacks fire at most once |
| `ConnOwner.RefireBreaks` | http/transport.go:733-756 | when the read loop does that, the callback runs a second time and the read loop blocks; the connection can then be handed out while in use exactly if it was sound and there was room |
| `ConnOwner.RefireFires` | http/transport.go:733-756 | each such step, of the read loop or of another user of the body, fires the callback a second time |
| `ConnOwner.FiresOnceIff` | http/transport.go:733-756 | over every interleaving no callback fires twice, exactly if neither the read loop nor another goroutine ends a body by Read or Close while its callback is being called |
| `ConnOwner.CloseIsSafe` | http/transport.go:745-756 | in every interleaving in which bodies are ended by Close, callbacks fire once and connections are handed out only when earlier requests are finished |
| `ConnOwner.DoubleUseReached` | http/transport.go:733-756 | a run in which two requests hold one connection |
| `ConnOwner.ClosedWhileReadReached` | http/transport.go:733-756 | one goroutine closes the body while another one's Read is in the callback: two requests hold one connection |
| `Fcgi.RecordRoundTrip` | http/fcgi/fcgi.go:124-159 | a record is read back, the reader at the next byte, exactly if its content is at most 65535 bytes |
| `Fcgi.RecordsRoundTrip` | http/fcgi/fcgi.go:124-159 | lists of records are read back |
| `Fcgi.RecordAligned` | http/fcgi/fcgi.go:91-97 | every record is a multiple of eight bytes |
| `Fcgi.StreamWriter.Write` | http/fcgi/fcgi.go:255-269 | the data is cut into non-empty records of at most 65535 bytes |
| `Fcgi.StreamWriter.Close` | http/fcgi/fcgi.go:271-274 | one empty record |
| `Fcgi.SendStream` | http/fcgi/fcgi.go:255-274 | contents concatenate to the data, exactly one record is empty, and that one is last |
| `Fcgi.SizeRoundTrip` | http/fcgi/fcgi.go:193-224 | sizes below 2^31 are self-delimiting under any suffix |
| `Fcgi.PairsRoundTrip` | http/fcgi/fcgi.go:173-191 | every list of pairs is parsed back, without slicing out of range, under any suffix |
| `Fcgi.CutPanicsIff` | http/fcgi/child.go:42-62 | an encoding cut short panics exactly if the cut is after the sizes of a pair |
| `Fcgi.MapListed` | http/fcgi/fcgi.go:173-191 | a map listed in any order is that map |
| `Fcgi.NextPair` | http/fcgi/fcgi.go:193-214 | one turn of the parser against slicing by position |
| `Fcgi.Request.ParseParams` | http/fcgi/child.go:42-62 | the loop computes the pure parse, or panics where that does |
| `Fcgi.SplitParams` | http/fcgi/child.go:178-185 | non-empty records only accumulate |
| `Fcgi.ParamsRecovered` | http/fcgi/child.go:178-185 | any split of the encoded pairs into non-empty records and an empty one recovers their map |
| `FcgiChild.Child.HandleRecord` | http/fcgi/child.go:155-222 | one record, errors and panics included, on the child's table |
| `FcgiChild.AliveIff` | http/fcgi/child.go:140-222 | a connection lives through a run exactly if no event in it is a repeated or malformed begin, an abort or end of a request whose connection is not kept, or parameters cut short |
| `FcgiChild.Multiplexed` | http/fcgi/child.go:155-185 | on a connection that stays up, other requests' records make no difference to a request that is not aborted |
| `FcgiChild.ParamsRecoveredIff` | http/fcgi/child.go:178-185 | the map is recovered if and only if nothing kills the connection |
| `FcgiChild.WireToParams` | http/fcgi/child.go:140-185 | from wire bytes: a request whose own params records cut up the encoding and end with an empty one has exactly its map, if and only if nothing on the connection takes it down |
| `FcgiChild.CutTakesAllDownIff` | http/fcgi/child.go:42-62 | parameters cut short end the process for every request exactly if the cut is after the sizes of a pair |
| `FcgiChild.OtherRequestLost` | http/fcgi/child.go:42-62 | two requests on a connection: the one takes the other down, whatever arrives afterwards |
| `FcgiChild.MapRoundTrip` | http/fcgi/fcgi.go:173-191 | for every map and every order of its entries, what the writer sends is the map the child ends up with |
| `Cookies.ReadParts` | http/cookie.go:183-205 | the loop gives exactly the valid parts that pass the filter, in order |
| `Cookies.ReadCookies` | http/cookie.go:170-208 | the same over all lines |
| `Cookies.FilterCommutes` | http/cookie.go:195-197 | for every header, reading with a name is filtering what is read without |
| `Cookies.SplitJoined` | http/request.go:204-211 | a joined line is split where it was joined |
| `Cookies.LinesGood` | http/cookie.go:250-267 | for every header of ASCII text only token names and cookie-byte values come out |
| `Cookies.CookiesRoundTrip` | http/request.go:204-211 | ASCII cookies added to a request are read back unchanged and in order, exactly if they are within the grammar |
| `SetCookies.String` | http/cookie.go:140-164 | the buffer holds the parts joined by "; " |
| `SetCookies.ReadAttributes` | http/cookie.go:69-125 | the attribute loop folds the attributes in order, the last one of a kind winning |
| `SetCookies.ReadSetCookies` | http/cookie.go:41-130 | one cookie for every valid line, in order |
| `SetCookies.MaxAgeRead` | http/cookie.go:99-108 | a printed MaxAge is read back, every negative one as -1 |
| `SetCookies.ReadIsLexical` | http/cookie.go:41-130 | for every line of ASCII text, a cookie read from it is within the grammar |
| `SetCookies.SetCookieRoundTrip` | http/cookie.go:41-164 | for ASCII text, String then readSetCookies restores name, value, path, domain, date, flags and normalised MaxAge, nothing unparsed, exactly if name, value, path and domain are within the grammar |
| `ServeMuxes.ServeMux.Handle` | http/server.go:946-969 | outcome and table; the table stays the one that belongs to the registrations |
| `ServeMuxes.PutDescribes` | http/server.go:960-968 | no explicit entry is replaced, and every subtree pattern has its slashless entry |
| `ServeMuxes.DescribedOnce` | http/server.go:946-969 | the registrations fix the table, whatever their order |
| `ServeMuxes.RegisterAll` | http/server.go:946-969 | over all call sequences: per pattern the first valid registration, and the table that belongs to them |
| `ServeMuxes.ServeMux.Match` | http/server.go:899-912 | for every iteration order, the handler of the unique longest matching pattern, nil exactly if none matches |
| `ServeMuxes.SameLength` | http/server.go:868-878 | matching patterns of equal length are equal |
| `ServeMuxes.FoundOnce` | http/server.go:899-912 | the rule leaves no choice of handler |
| `ServeMuxes.ServeMux.HandlerFor` | http/server.go:915-928 | host patterns first, then general ones, then not found |
| `ServeMuxes.HostSpecific` | http/server.go:919-922 | a rooted pattern never answers for a host |
| `ServeMuxes.ExactWins` | http/server.go:868-878 | a registered path gets its own handler |
| `ServeMuxes.RedirectTarget` | http/server.go:963-968 | an implicit entry redirects to a registered pattern, whose own root gets the registered handler |
| `ServeMuxes.MisdirectedIff` | http/server.go:963-968 | a path other than a slashless form is redirected exactly if a pattern ends in two slashes and its single-slash form is not registered |
| `Redirects.RedirectLandsIff` | http/server.go:740-786 | following the Location of an implicit redirect asks for the root of the pattern, exactly if that is rooted, holds no '?', '#' or '%', and no empty, "." or ".." element |
| `Redirects.LandedHandler` | http/server.go:740-786 | where it lands, the registered handler answers |
| `Redirects.DoubleSlashLoops` | http/server.go:740-786 | a pattern that ends in two slashes redirects to the path it redirects from |
| `Redirects.HostPatternMisses` | http/server.go:740-786 | for a host pattern the host becomes an element of the path, and the redirect misses |

## Left out

- Headers are association lists. The laws about requests and replies take keys in the spelling that Header.Set and Header.Add give them; `Head.FieldsRoundTrip` says for all keys what the reader makes of them.
- HTTP/0.9, Expect: 100-continue, Hijack and ReadFrom of the response object, TimeoutHandler; a handler is assumed not to change the header after it is sent, and the edit `finishRequest` makes then is made on a copy.
- `transferWriter` is modelled for requests; the writer of client-built `Response` values is not, nor are trailers that are sent.
- Trailer fields are consumed and checked, and their merging into the message is not modelled.
- URL parsing: a request line is read back as the text of its URI, and a redirect target is one without a scheme; a client is taken to ask for the path of a Location as it is, escapes decoded.
- Chunked.ChunkedReader.Read: with an empty buffer and an error nothing is said about the bytes still to come, because `bufio` may report a latched end of file.
- Transfer.Body.Read: positive buffer sizes only, for the same reason.
- Sniffing tables, status texts, dates and the clock are parameters; the sniffer is assumed never to answer "multipart/byteranges".
- Errors of the connection while writing are not modelled for responses and requests; ServerConn and ConnOwner have error steps.
- Metadata routing, libshout, blocking on full channels, the manager's restart and the recover in AddClient.
- Icecast.Client: stands for a client and its ClientID together, which are created together.
- ProcessClients.ProcessMount: one mount between its creation and its collection; collections, over all mounts, are in `Collection`, on values.
- ServerConn.StepKeeps: the connection is a value and its steps are a relation, because several goroutines share it; locks and `textproto.Pipeline` appear as atomic steps and turnstiles.
- ConnOwner.StepKeeps: one connection at a time, as a relation on values for the same reason; gzip, proxies, CONNECT and timeouts are left out. Testing and setting `isClosed` is one step.
- Collection.LosesIff: the counter is not bounded there; its 32-bit wrap-around is in `Icecast.ClientContainer`. A leave when no mount has the name is a panic and ends the run.
- FcgiChild.ParamsRecoveredIff: the handler and its input stream appear only as the start and the end of the handler; the answers the child sends are not modelled.
- SetCookies.SetCookieRoundTrip: the time package is a pair of functions assumed to undo each other on the cookie's date and to print it in date bytes.
- Cookie text beyond ASCII: the code checks the characters of a name modulo 256 there, and trims the spaces of Unicode.
- The redirect to a cleaned path that ServeMux.ServeHTTP makes before any lookup.
- Authentication, configuration, the admin pages, file serving, multipart and the HTTP client above the transport would add easy members only.
