# Verified models of the HTTP and CGI servers

Dafny models of the algorithms the servers' correctness rests on, and proofs about all
their inputs, runs and interleavings. The kernel (recv, writev, epoll, time, waitpid) and
MySQL are inputs: what a call returns is a parameter of the model.

- `CStrings`, `HttpMachine`, `HttpConn`: the resumable request parser of the POST server,
  once on values and once in place over its 2048-byte buffer with NULs, indices and
  offsets. The second is proved to compute the first.
- `HttpSplit`, `HttpMessage`, `HttpTarget`, `HttpBodyCut`: what the parser does with a
  request cut into reads, what it makes of a printed message, and which resource a request
  line asks for.
- `Webbench`: the benchmark client's request printer, read back by the parser.
- `Response`, `GatherWrite`: building a response and sending it through short writes.
- `Accounts`: the login form, and workers that register and log in side by side.
- `HeapTimer`, `EventLoop`: inactivity timers whose keys change under the heap, and the
  main loop.
- `WorkerPool`, `Pools`: worker threads, request queue and database connections, as mixed
  steps of all threads and as the objects one thread uses.
- `Dispatcher`: the round-robin parent of the process pool.
- `BlockQueue`, `AsyncLog`, `LogFiles`, `LaggingLog`: the circular queue under its
  monitor, the asynchronous log, its files, and both together.
- `OneShot`: who may touch a connection of the GET server.

## What the code does not keep

Several statements the code's comments suggest are false in general. Each is proved with
the exact condition under which it holds.

- A request body that arrives in two reads is usually never answered. The comment at
  http_conn.cpp:331 calls the assignment of LINE_OPEN there harmless; it makes the next
  loop test scan the body for lines and move m_checked_idx. `HttpSplit.CutTheorem`,
  `HttpBodyCut.BodyInTwoReads`.
- A response with a file can arrive wrong when two short writes stop inside the header,
  because the cumulative count is compared with, and subtracted from, an already shortened
  length: `GatherWrite.ExactIffOneStop`, `GatherWrite.TwoStopsCorrupt`. One without a file
  then never finishes: nothing is left on offer and the loop in write spins:
  `GatherWrite.WithoutFile`, `GatherWrite.TwoStopsStarve`. `GatherWrite.FixedIsExact` is the
  repair.
- A file of 2 GiB or more is announced with a wrong length. `Response.FramingIsRight`.
- With two or more workers two people can both be told that they registered one name; only
  the first can log in, until a restart on the documented table, which has no unique key,
  lets only the second in. `Accounts.PromisesIff`, `Accounts.RestartIff`.
- A registration whose query failed is answered with the error page, and still can log in
  until a restart. `Accounts.RefusedCanLogIn`, `Accounts.FailedQueriesIff`.
- With two or more producers the log can drop a line between full() and push().
  `AsyncLog.NothingDroppedIff`. The comment in log.h says that an empty string ends the
  consumer; only a failed pop does, and the model follows the code.
- A log written on the same day of two months goes on in the old file.
  `LogFiles.CurrentAfterWrite`.
- A log started again on the same day counts from zero over a file that has lines, and the
  file gets more than m_split_lines. `LogFiles.OpenedIff`, `LogFiles.RestartOverfills`.
- An asynchronous log, which is what the server runs, rotates when a line is called and
  writes it later, so a file can get the lines still queued on top of its own.
  `LaggingLog.LagIsBounded`, `LaggingLog.LagIsReached`.
- With more workers than connections a worker can get a null connection.
  `WorkerPool.NullConnectionIff`.

## Model

| member | source | states |
|---|---|---|
| HttpSplit.CutTheorem | POST-Webserver/SimpleWebServer/src/http/http_conn.cpp:303-339 | For every request and every list of reads: calling the parser after each read ends in the same state and code as one call on the whole input if and only if every cut inside the body leaves the body unscanned |
| HttpSplit.SingleCut | POST-Webserver/SimpleWebServer/src/http/http_conn.cpp:303-334 | One cut is invisible, or it is a harmful body cut and the scan has moved past the place where one call would have left it |
| HttpSplit.HeaderCutIsInvisible | POST-Webserver/SimpleWebServer/src/http/http_conn.cpp:145-169 | A cut in the request line or the headers, even between CR and LF, is never seen |
| HttpSplit.AnswerIsFinal | POST-Webserver/SimpleWebServer/src/http/http_conn.cpp:293-340 | Bytes that come after a complete request do not change the answer or the state |
| HttpSplit.AnsweredExactlyAtLength | POST-Webserver/SimpleWebServer/src/http/http_conn.cpp:281-290 | A prefix of a request is answered if and only if it holds all of its head and announced body |
| HttpSplit.HarmfulCutStalls | POST-Webserver/SimpleWebServer/src/http/http_conn.cpp:327-334 | When the rest of a request arrives, it is answered if and only if the earlier cut was harmless |
| HttpSplit.BadLineAbsorbs | POST-Webserver/SimpleWebServer/src/http/http_conn.cpp:158-165 | Once a call has stopped at a malformed line, after any number of good ones, every later call answers NO_REQUEST and changes nothing but the input |
| HttpBodyCut.BadHeaderStalls | POST-Webserver/SimpleWebServer/src/http/http_conn.cpp:158-165 | On printed headers: a request line, any header lines and then a malformed one, and no call ever answers |
| HttpSplit.FaultCauses | POST-Webserver/SimpleWebServer/src/http/http_conn.cpp:224-237 | With room in the buffer only an absolute URL without a path or a negative length leads to an undefined operation |
| HttpSplit.ParseLineFeed | POST-Webserver/SimpleWebServer/src/http/http_conn.cpp:145-169 | The line scan: later bytes do not change a verdict, and an open scan resumes without loss |
| HttpSplit.LineVerdict | POST-Webserver/SimpleWebServer/src/http/http_conn.cpp:145-169 | The scan's verdict and place by the first CR or LF it meets: LF is bad, CR LF ends the line, CR at the end of the input leaves it open, any other CR is bad |
| HttpSplit.ShortBodyScans | POST-Webserver/SimpleWebServer/src/http/http_conn.cpp:303-334 | While the body is short a call answers nothing and moves the indices over the body's whole lines: exactly where they stop |
| HttpSplit.LateAnswer | POST-Webserver/SimpleWebServer/src/http/http_conn.cpp:282-290 | From wherever the scan stands the request is answered when as many bytes as announced follow, with the body read from the line's beginning |
| HttpMachine.Step | POST-Webserver/SimpleWebServer/src/http/http_conn.cpp:303-335 | Each pass of the parser loop consumes bytes or turns LINE_OK into LINE_OPEN, so the loop ends |
| HttpMachine.ShortBodyStays | POST-Webserver/SimpleWebServer/src/http/http_conn.cpp:282-290 | While the body is shorter than announced no line found in it completes the request |
| HttpMachine.BodyKeepsFields | POST-Webserver/SimpleWebServer/src/http/http_conn.cpp:327-334 | Once the body is reached the results of the headers no longer change |
| HttpTarget.LineUrl | POST-Webserver/SimpleWebServer/src/http/http_conn.cpp:195-247 | A request line with a path, bare or behind http or https and an authority, is read as that path, and / as /judge.html |
| HttpTarget.UrlRead | POST-Webserver/SimpleWebServer/src/http/http_conn.cpp:195-247 | So is a whole message, whatever its headers and body |
| HttpTarget.AcceptedLineAsks | POST-Webserver/SimpleWebServer/src/http/http_conn.cpp:195-247 | Every accepted line has one of these forms |
| HttpTarget.PathlessFaults | POST-Webserver/SimpleWebServer/src/http/http_conn.cpp:224-230 | A line whose http target has no path passes a null pointer on |
| HttpTarget.FaultLineHasForm | POST-Webserver/SimpleWebServer/src/http/http_conn.cpp:224-237 | No other line does; whatever else is not accepted is a bad request |
| HttpMessage.MethodKnown | POST-Webserver/SimpleWebServer/src/http/http_conn.cpp:201-210 | The methods are GET and POST, in any case of letters |
| CStrings.EqualUpToCase | POST-Webserver/SimpleWebServer/src/http/http_conn.cpp:202-220 | Names compare equal exactly when they differ in the case of letters only |
| CStrings.BlanksAndTabs | POST-Webserver/SimpleWebServer/src/http/http_conn.cpp:196-219 | What is cut at and skipped are spaces and tabs |
| HttpMessage.RequestLineRead | POST-Webserver/SimpleWebServer/src/http/http_conn.cpp:195-247 | Every line of the form method, blanks, target, blanks, version is read as its method and target (section 3.1.1 of RFC 7230) |
| HttpMessage.AcceptedLineHasForm | POST-Webserver/SimpleWebServer/src/http/http_conn.cpp:195-247 | Conversely every accepted line has that form with a known method, HTTP/1.1 and an acceptable target |
| HttpMessage.AbsoluteTarget | POST-Webserver/SimpleWebServer/src/http/http_conn.cpp:224-233 | An absolute http or https target is read as the path in it |
| HttpMessage.HeadersMeaning | POST-Webserver/SimpleWebServer/src/http/http_conn.cpp:250-279 | A list of header lines means: the last Host, the last length, and keep-alive if any line says so |
| HttpMessage.HeadersRead | POST-Webserver/SimpleWebServer/src/http/http_conn.cpp:311-326 | Printed header lines are read one by one, in order, to that meaning |
| HttpMessage.MessageRead | POST-Webserver/SimpleWebServer/src/http/http_conn.cpp:293-340 | A printed message is read back as its method, target, host, linger flag and body, and is answered exactly when the announced body length has arrived (section 3.3.3 of RFC 7230), or at once when that is negative |
| HttpBodyCut.BodyInTwoReads | POST-Webserver/SimpleWebServer/src/http/http_conn.cpp:327-334 | A body that arrives in two reads completes the request if and only if its first byte stops the line scan |
| HttpBodyCut.LoginFormStalls | POST-Webserver/SimpleWebServer/src/http/http_conn.cpp:327-334 | A concrete login form that is answered in one read and never answered when cut after its first body byte |
| Response.NumberReads | POST-Webserver/SimpleWebServer/src/http/http_conn.cpp:266-268 | Blanks, a sign and digits are read as that number, up to the first other character |
| Response.NoNumber | POST-Webserver/SimpleWebServer/src/http/http_conn.cpp:266-268 | Without digits there the number is zero |
| CStrings.AtoiBeyond | POST-Webserver/SimpleWebServer/src/http/http_conn.cpp:268-268 | What an int keeps of numbers it cannot hold |
| HttpConn.HttpConn.ReadOnce | POST-Webserver/SimpleWebServer/src/http/http_conn.cpp:173-192 | Appends what recv delivers, and fails on a full buffer, a closed peer or an error |
| HttpConn.HttpConn.ParseLine | POST-Webserver/SimpleWebServer/src/http/http_conn.cpp:145-169 | The in-place scan gives the verdict and index of the scan on the received bytes, stores exactly two NULs on success, and never takes the LF-after-CR branch |
| HttpConn.HttpConn.AppendDefaultPage | POST-Webserver/SimpleWebServer/src/http/http_conn.cpp:239-242 | The URL / becomes /judge.html and any other stays; nothing is written at or beyond the next line |
| HttpConn.HttpConn.CutAtBlanks | POST-Webserver/SimpleWebServer/src/http/http_conn.cpp:196-219 | strpbrk, the NUL and strspn leave two C strings: the word and the text after its blanks |
| HttpConn.HttpConn.ResolveUrl | POST-Webserver/SimpleWebServer/src/http/http_conn.cpp:223-246 | In place: the target's path, its default page, the rejected targets, and nothing written outside the line |
| HttpConn.HttpConn.ParseRequestLine | POST-Webserver/SimpleWebServer/src/http/http_conn.cpp:195-247 | In place: the request line's method and URL or its error; all writes stay inside the line |
| HttpConn.HttpConn.ParseHeaders | POST-Webserver/SimpleWebServer/src/http/http_conn.cpp:250-279 | In place: one header line changes the fields as on values and keeps URL and host intact |
| HttpConn.HttpConn.ParseContent | POST-Webserver/SimpleWebServer/src/http/http_conn.cpp:282-290 | In place: the body becomes a C string when it is complete, and the store is inside the buffer |
| HttpConn.HttpConn.ProcessRead | POST-Webserver/SimpleWebServer/src/http/http_conn.cpp:293-340 | The parser over one buffer, three indices and offsets computes exactly the value-level parser, and URL, host and body are the strings it says |
| Webbench.Bench.BuildRequest | POST-Webserver/PressureTest/webbench-1.5/webbench.c:199-291 | Which URLs are printed, refused or overrun a buffer; the text printed, with and without a proxy; and every printed request fits its 2048 bytes, whatever the options |
| Webbench.Bench.CopyHost | POST-Webserver/PressureTest/webbench-1.5/webbench.c:249-261 | Host and port are copied out of the URL exactly when they fit their buffers |
| Webbench.Bench.ForceVersion | POST-Webserver/PressureTest/webbench-1.5/webbench.c:207-210 | The HTTP version used is the least from the wanted one on that the method and the reload flag allow |
| Webbench.SchemeIsFirst | POST-Webserver/PressureTest/webbench-1.5/webbench.c:223-239 | The scheme's end is the first :// in the URL |
| Webbench.PortRead | POST-Webserver/PressureTest/webbench-1.5/webbench.c:248-257 | The port a URL names is connected to; none leaves the default, zero gives 80 |
| Webbench.DirectText | POST-Webserver/PressureTest/webbench-1.5/webbench.c:212-289 | The bytes printed for a server, for each method and version |
| Webbench.ProxiedText | POST-Webserver/PressureTest/webbench-1.5/webbench.c:212-289 | The bytes printed for a proxy, for each method and version, with and without the reload flag |
| Webbench.UrlTakenApart | POST-Webserver/PressureTest/webbench-1.5/webbench.c:223-262 | A URL printed from host, port and path is taken apart into them, and is accepted if and only if the parts fit |
| Webbench.GetRoundTrip | POST-Webserver/PressureTest/webbench-1.5/webbench.c:199-291 | The server reads the printed HTTP/1.1 GET as a complete request with that path (or the default page) and host, no keep-alive and nothing left over |
| Webbench.OtherRequestsRefused | POST-Webserver/PressureTest/webbench-1.5/webbench.c:207-272 | Every other method and version the client prints is answered as a bad request |
| Webbench.ProxyRoundTrip | POST-Webserver/PressureTest/webbench-1.5/webbench.c:264-291 | A server that gets the request meant for a proxy finds the path in its absolute URL, and no host |
| Webbench.RoundTripInPieces | POST-Webserver/PressureTest/webbench-1.5/webbench.c:199-291 | The round trip survives every way of cutting the request into reads |
| GatherWrite.Conservation | POST-Webserver/SimpleWebServer/src/http/http_conn.cpp:488-489 | For every run of short writes sent plus unsent bytes is constant, and what was sent is never taken back |
| GatherWrite.SentIsPrefix | POST-Webserver/SimpleWebServer/src/http/http_conn.cpp:476-511 | With at most one stop inside the header the bytes sent are at every moment a prefix of header and file |
| GatherWrite.ExactIffOneStop | POST-Webserver/SimpleWebServer/src/http/http_conn.cpp:490-497 | A finished run has sent exactly header and file if and only if at most one call stopped strictly inside the header |
| GatherWrite.TwoStopsGoWrong | POST-Webserver/SimpleWebServer/src/http/http_conn.cpp:494-497 | For every header of three bytes or more two stops leave too little of it on offer |
| GatherWrite.TwoStopsCorrupt | POST-Webserver/SimpleWebServer/src/http/http_conn.cpp:490-497 | With a file, for every header of three bytes or more, a run with two stops that finishes and has sent something else |
| GatherWrite.WithoutFile | POST-Webserver/SimpleWebServer/src/http/http_conn.cpp:601-605 | Without a file no run with two stops finishes, so whatever finishes is exact |
| GatherWrite.StarvedStays | POST-Webserver/SimpleWebServer/src/http/http_conn.cpp:476-510 | Once nothing is on offer while bytes are left, every writev takes nothing, for ever |
| GatherWrite.TwoStopsStarve | POST-Webserver/SimpleWebServer/src/http/http_conn.cpp:476-510 | Without a file, for every header of three bytes or more, two stops lead there |
| GatherWrite.StaysBounded | POST-Webserver/SimpleWebServer/src/http/http_conn.cpp:490-497 | Never more bytes are offered than are still to be sent |
| GatherWrite.FixedIsExact | POST-Webserver/SimpleWebServer/src/http/http_conn.cpp:490-497 | With the header's remainder taken from m_write_idx every finished run is exact, wherever calls stop |
| Response.HttpResponse.AddResponse | POST-Webserver/SimpleWebServer/src/http/http_conn.cpp:513-529 | Text is appended if and only if a byte is left over; otherwise the message so far is unchanged |
| Response.HttpResponse.ProcessWrite | POST-Webserver/SimpleWebServer/src/http/http_conn.cpp:553-606 | The write buffer holds the printed response, no call fails for room, and the two buffers and the byte count are those of a run about to start; an empty file gets no answer |
| Response.HttpResponse.Write | POST-Webserver/SimpleWebServer/src/http/http_conn.cpp:467-511 | The loop of write calls is the run of its lengths; whether it keeps the connection, gives it up or never returns, and what it resets |
| Response.HttpResponse.Account | POST-Webserver/SimpleWebServer/src/http/http_conn.cpp:488-497 | One writev's bookkeeping is one step of the run |
| Response.HttpResponse.Init | POST-Webserver/SimpleWebServer/src/http/http_conn.cpp:118-141 | The response fields start over and keep-alive is off |
| Response.PrintedIntReadsBack | POST-Webserver/SimpleWebServer/src/http/http_conn.cpp:538-540 | Every int printed with %d is read back by atoi |
| Response.ReplyText | POST-Webserver/SimpleWebServer/src/http/http_conn.cpp:553-590 | The bytes of each reply: 500, 404 for a bad request, 403, or 200 with the file's length |
| Response.FramingIsRight | POST-Webserver/SimpleWebServer/src/http/http_conn.cpp:533-606 | The announced length is the number of bytes after the blank line if and only if the file's size fits an int, and the connection header is right |
| Response.ArrivesFramed | POST-Webserver/SimpleWebServer/src/http/http_conn.cpp:467-606 | A finished response with at most one stop arrives as one message whose body has the length it announces |
| Accounts.FormExactly | POST-Webserver/SimpleWebServer/src/http/http_conn.cpp:353-366 | The bodies read as a given name and password, exactly |
| Accounts.FormRoundTrip | POST-Webserver/SimpleWebServer/src/http/http_conn.cpp:353-366 | Reading undoes printing a form if and only if the name has no & and both fit their arrays |
| Accounts.CopyName | POST-Webserver/SimpleWebServer/src/http/http_conn.cpp:355-361 | The first copy loop and when it leaves its array or its string |
| Accounts.CopyPassword | POST-Webserver/SimpleWebServer/src/http/http_conn.cpp:363-366 | The second copy loop and when it leaves its array |
| Accounts.ReadForm | POST-Webserver/SimpleWebServer/src/http/http_conn.cpp:353-366 | Both loops together compute the form |
| Accounts.FormPosted | POST-Webserver/SimpleWebServer/src/http/http_conn.cpp:282-366 | From the wire: a message that carries a printed form is answered and read as the name and password typed in, exactly when they fit |
| Accounts.LoadIsLast | POST-Webserver/SimpleWebServer/src/http/http_conn.cpp:51-56 | A loaded password is that of the name's last row |
| Accounts.SessionLaw | POST-Webserver/SimpleWebServer/src/http/http_conn.cpp:380-385 | A worker goes to the lock exactly with a name it did not find |
| Accounts.InsertedLaw | POST-Webserver/SimpleWebServer/src/http/http_conn.cpp:381-390 | Over every run the table grows, and people are sent to the login page, by exactly the registrations whose query succeeds |
| Accounts.InsertFits | POST-Webserver/SimpleWebServer/src/http/http_conn.cpp:370-376 | The INSERT fits its buffer when name and password have at most 150 characters together |
| Accounts.PasswordStays | POST-Webserver/SimpleWebServer/src/http/http_conn.cpp:380-385 | Over any run of steps of any workers a name's password never changes |
| Accounts.LoginIsAtomic | POST-Webserver/SimpleWebServer/src/http/http_conn.cpp:396-399 | A login whose lookup and comparison are apart answers as at the lookup's moment |
| Accounts.LoginExactly | POST-Webserver/SimpleWebServer/src/http/http_conn.cpp:369-399 | After any run a login succeeds exactly with the password loaded at the start or first inserted for the name |
| Accounts.PromisesIff | POST-Webserver/SimpleWebServer/src/http/http_conn.cpp:380-390 | In every run each registration answered with the login page gives a working login if and only if there is at most one worker |
| Accounts.RestartIff | POST-Webserver/SimpleWebServer/src/http/http_conn.cpp:32-59 | In every run whose queries succeed the table read back gives the users in memory if and only if there is at most one worker |
| Accounts.FailedQueriesIff | POST-Webserver/SimpleWebServer/src/http/http_conn.cpp:380-390 | With one worker the logins that work are the loaded and the welcomed ones, and the table read back gives the map, in exactly those runs whose effective inserts had their query succeed |
| Accounts.RefusedCanLogIn | POST-Webserver/SimpleWebServer/src/http/http_conn.cpp:383-390 | A registration whose query fails is answered with the error page and can log in |
| Accounts.Store.constructor | POST-Webserver/SimpleWebServer/src/http/http_conn.cpp:51-56 | Loading the table row by row keeps the last password of a name |
| Accounts.Store.Register | POST-Webserver/SimpleWebServer/src/http/http_conn.cpp:369-393 | An undisturbed registration is its two protocol steps; answered with the login page, it can log in |
| Accounts.Store.DoForm | POST-Webserver/SimpleWebServer/src/http/http_conn.cpp:353-400 | A form request: when C has no result, which page it gets, and what it leaves in the map and the table |
| HeapTimer.HeapTimer.Push | POST-Webserver/SimpleWebServer/inc/heap_timer.h:48-51 | Adds exactly the timer, and keeps the heap order if there was one |
| HeapTimer.HeapTimer.Pop | POST-Webserver/SimpleWebServer/inc/heap_timer.h:67-69 | Removes exactly the top whatever the order was, and keeps the heap order if there was one |
| HeapTimer.HeapTimer.DelTimer | POST-Webserver/SimpleWebServer/inc/heap_timer.h:60-73 | Drain and refill lose and duplicate nothing, remove exactly the timer, and give a valid heap from any array; an empty queue throws |
| HeapTimer.HeapTimer.AdjustTimer | POST-Webserver/SimpleWebServer/inc/heap_timer.h:54-57 | After a key was changed in place: the same timers and a valid heap |
| HeapTimer.HeapTimer.Tick | POST-Webserver/SimpleWebServer/inc/heap_timer.h:76-89 | Fires exactly the expired timers, each once, in order of expiry, and leaves a valid heap of later ones |
| HeapTimer.TopIsLeast | POST-Webserver/SimpleWebServer/inc/heap_timer.h:29-34 | In a valid heap the top expires no later than any other |
| EventLoop.Server.Run | POST-Webserver/SimpleWebServer/src/main.cpp:174-322 | The loop with its heap of timers changed in place closes and keeps exactly the connections the inactivity protocol says; timers, connections and the user count correspond throughout |
| EventLoop.Server.HandleAll | POST-Webserver/SimpleWebServer/src/main.cpp:184-315 | A batch of events is the protocol's answer to them one by one |
| EventLoop.Server.Handle | POST-Webserver/SimpleWebServer/src/main.cpp:184-315 | One event: the branch taken, the timer and the user count |
| EventLoop.Server.Refresh | POST-Webserver/SimpleWebServer/src/main.cpp:276-282 | Traffic moves a connection's deadline to three slots later |
| EventLoop.Server.Close | POST-Webserver/SimpleWebServer/src/main.cpp:284-289 | Closing removes the connection and exactly its timer |
| EventLoop.Server.Accept | POST-Webserver/SimpleWebServer/src/main.cpp:206-219 | A new connection gets one timer, three slots ahead |
| EventLoop.Server.AcceptAll | POST-Webserver/SimpleWebServer/src/main.cpp:191-220 | Connections are accepted, in order, until none is left or the server is full |
| EventLoop.Server.TimerHandler | POST-Webserver/SimpleWebServer/src/main.cpp:58-74 | A tick closes exactly the connections idle for three slots |
| EventLoop.Server.TakeSignals | POST-Webserver/SimpleWebServer/src/main.cpp:243-259 | Which signals set the timeout and the stop flag |
| EventLoop.EventLaw | POST-Webserver/SimpleWebServer/src/main.cpp:224-314 | An open connection is closed exactly by a hang-up, a failed read or a failed write of its own; its own good traffic, and nothing else, sets its date |
| EventLoop.ClosedLaw | POST-Webserver/SimpleWebServer/src/main.cpp:184-315 | Nothing but an accept opens a connection |
| EventLoop.EndedIsClosed | POST-Webserver/SimpleWebServer/src/main.cpp:284-289 | What an event of a batch has closed is closed after the batch unless it is accepted again |
| EventLoop.AcceptedAreOpen | POST-Webserver/SimpleWebServer/src/main.cpp:191-220 | Exactly the first connections for which there is room are open after the accepts, each dated at its accept |
| EventLoop.AcceptedStaysOpen | POST-Webserver/SimpleWebServer/src/main.cpp:206-219 | From its accept on a connection is open through every run that spares it whose alarms tick less than three slots later |
| EventLoop.LoopSplits | POST-Webserver/SimpleWebServer/src/main.cpp:174-322 | The batch that brings SIGTERM is the last one handled, and no other is |
| EventLoop.ActiveStaysOpen | POST-Webserver/SimpleWebServer/src/main.cpp:276-282 | In every run no connection is closed by a tick earlier than three slots after its last traffic |
| EventLoop.IdleIsClosed | POST-Webserver/SimpleWebServer/src/main.cpp:318-321 | A silent connection is closed by the first alarm pass three slots after its last traffic |
| EventLoop.CountTracked | POST-Webserver/SimpleWebServer/src/main.cpp:68-68 | One timer for each open connection means as many timers as connections |
| WorkerPool.StepKeeps | POST-Webserver/SimpleWebServer/inc/threadpool.h:65-100 | Every step of every thread keeps the accounts of queue, semaphores and connections |
| WorkerPool.EveryRun | POST-Webserver/SimpleWebServer/inc/threadpool.h:65-100 | In every interleaving the requests taken and queued are those of the appends that found room, in order and each once, the queue stays within one of its maximum, a woken worker finds a request, and no connection is held twice |
| WorkerPool.AcceptedLaw | POST-Webserver/SimpleWebServer/inc/threadpool.h:65-75 | Over every run the accepted requests are those of the appends that started and found at most the maximum queued |
| WorkerPool.EveryRunCanFinish | POST-Webserver/SimpleWebServer/inc/threadpool.h:65-100 | Nobody gets stuck: with a worker and a connection every run can go on to a state in which every accepted request has been taken, all threads are idle and all connections are back |
| WorkerPool.NobodyWaitsForConnection | POST-Webserver/SimpleWebServer/src/MysqlPool/sql_connection_pool.cpp:64-81 | With no more workers than connections GetConnection neither returns NULL nor blocks, in every interleaving |
| WorkerPool.NullConnectionIff | POST-Webserver/SimpleWebServer/src/MysqlPool/sql_connection_pool.cpp:64-67 | No run hands out a null connection if and only if there are at most as many workers as connections |
| Pools.ConnectionPool.constructor | POST-Webserver/SimpleWebServer/src/MysqlPool/sql_connection_pool.cpp:33-60 | The pool starts with all connections listed and the semaphore at their number |
| Pools.ConnectionPool.GetConnection | POST-Webserver/SimpleWebServer/src/MysqlPool/sql_connection_pool.cpp:64-81 | Takes the first connection, or none from an empty list, and keeps the counters |
| Pools.ConnectionPool.ReleaseConnection | POST-Webserver/SimpleWebServer/src/MysqlPool/sql_connection_pool.cpp:84-98 | Gives a connection back at the end of the list; a null one changes nothing |
| Pools.ThreadPool.Append | POST-Webserver/SimpleWebServer/inc/threadpool.h:65-75 | A call of append queues its request at the end and posts once, or is refused and changes nothing; it is its two protocol steps |
| Pools.ThreadPool.RunOnce | POST-Webserver/SimpleWebServer/inc/threadpool.h:81-100 | An undisturbed pass of a worker takes the first request and returns its connection to the end of the list; it is its seven protocol steps |
| Pools.PassIs | POST-Webserver/SimpleWebServer/src/MysqlPool/sql_connection_pool.cpp:127-137 | The scope of connectionRAII leaves all counters as they were and the connection last in the list |
| Dispatcher.OrderListsLive | CGI-Learn/processpool.h:301-307 | Going once around from the counter meets each live child exactly once |
| Dispatcher.Rotation | CGI-Learn/processpool.h:301-314 | Serving a child moves it to the end of the order and changes nothing else |
| Dispatcher.EachOncePerRound | CGI-Learn/processpool.h:300-316 | Any k dispatches in a row with k children alive serve each exactly once, for every pool size |
| Dispatcher.SharesDifferByOne | CGI-Learn/processpool.h:300-316 | Over any interval the shares of two live children differ by at most one |
| Dispatcher.SurvivorIsServed | CGI-Learn/processpool.h:297-351 | However other children die, one that stays alive is served as soon as more connections come than it is places ahead, so within any n |
| Dispatcher.ReapedNeverServed | CGI-Learn/processpool.h:330-344 | Once an event has reported a child's death no later connection goes to it |
| Dispatcher.NobodyLeftIff | CGI-Learn/processpool.h:309-312 | A connection finds nobody if and only if every child that was alive has been reported |
| Dispatcher.ConnectsAreServed | CGI-Learn/processpool.h:297-318 | While nobody dies the parent's children are those of so many dispatches in a row |
| Dispatcher.ProcessPool.Dispatch | CGI-Learn/processpool.h:300-314 | The loop finds the first live child from the counter on, or stops the pool when none is left |
| Dispatcher.ProcessPool.Reap | CGI-Learn/processpool.h:330-351 | Exactly the places of the reaped children are marked dead, and the pool stops if and only if none is left alive |
| Dispatcher.ProcessPool.HandleBatch | CGI-Learn/processpool.h:297-375 | One epoll batch, with a connection that finds nobody ending it |
| Dispatcher.ProcessPool.RunParent | CGI-Learn/processpool.h:290-375 | The parent's loop serves exactly the children of the dispatcher without batches |
| Dispatcher.NoneLeft | CGI-Learn/processpool.h:309-312 | With all children dead nothing is dispatched any more |
| BlockQueue.Ring.IndicesAgree | POST-Webserver/SimpleWebServer/inc/block_queue.h:24-37 | Front plus size is congruent to back modulo the capacity, from -1 on |
| BlockQueue.Ring.PushAppends | POST-Webserver/SimpleWebServer/inc/block_queue.h:112-130 | A push appends to the contents or, when full, changes nothing |
| BlockQueue.Ring.PopTakesHead | POST-Webserver/SimpleWebServer/inc/block_queue.h:143-145 | A pop takes the oldest item and leaves the others in order |
| BlockQueue.BlockQueue.Push | POST-Webserver/SimpleWebServer/inc/block_queue.h:112-130 | In the array: accepted if and only if there is room, and then appended |
| BlockQueue.BlockQueue.Pop | POST-Webserver/SimpleWebServer/inc/block_queue.h:132-148 | In the array: the first item of the contents |
| BlockQueue.BlockQueue.Back | POST-Webserver/SimpleWebServer/inc/block_queue.h:82-91 | The last item pushed, if there is one |
| BlockQueue.BlockQueue.Full | POST-Webserver/SimpleWebServer/inc/block_queue.h:48-57 | Whether the contents reach the capacity |
| BlockQueue.BlockQueue.Clear | POST-Webserver/SimpleWebServer/inc/block_queue.h:31-37 | Empties the queue |
| BlockQueue.TurnKeepsGood | POST-Webserver/SimpleWebServer/inc/block_queue.h:112-148 | Every turn of a producer or consumer, and every spurious wake-up or failed wait, keeps the queue bounded, first in first out, and nobody asleep over it |
| BlockQueue.ConsumerLeaves | POST-Webserver/SimpleWebServer/inc/block_queue.h:132-148 | A consumer leaves pop exactly when its wait fails or, woken, it finds an item, which is the oldest one |
| BlockQueue.ConsumerEnters | POST-Webserver/SimpleWebServer/inc/block_queue.h:132-148 | A call of pop gets the oldest item, or sleeps on an empty queue |
| BlockQueue.PushWakes | POST-Webserver/SimpleWebServer/inc/block_queue.h:112-130 | A push wakes every sleeper; nothing else in the queue does |
| BlockQueue.EveryInterleaving | POST-Webserver/SimpleWebServer/inc/block_queue.h:112-148 | Under every interleaving the items pushed with room are the popped items followed by the contents, and no thread sleeps while the queue holds something |
| AsyncLog.StepKeepsOrder | POST-Webserver/SimpleWebServer/src/log/log.cpp:155-160 | With one producer every step keeps all lines, in call order |
| AsyncLog.NothingDroppedIff | POST-Webserver/SimpleWebServer/src/log/log.cpp:155-160 | No run loses a line if and only if there is at most one producer |
| AsyncLog.WrittenInCallOrder | POST-Webserver/SimpleWebServer/inc/log.h:42-50 | With one producer the file is a beginning of the lines called, and all of them once everything is idle |
| LogFiles.CurrentAfterWrite | POST-Webserver/SimpleWebServer/src/log/log.cpp:108-132 | A write leaves the file of its own day and number open if and only if the day of the month tells its day apart, or a new file is due |
| LogFiles.RotationIsRight | POST-Webserver/SimpleWebServer/src/log/log.cpp:105-165 | Over every run of days the open file is the one numbered m_count / m_split_lines, whatever the files hold; and bounds on their lines are kept |
| LogFiles.WriteKeepsBounds | POST-Webserver/SimpleWebServer/src/log/log.cpp:108-132 | A write keeps every file within the line limit |
| LogFiles.LimitIff | POST-Webserver/SimpleWebServer/src/log/log.cpp:105-165 | From any state every run of days keeps all files within m_split_lines if and only if none is too long, the open one has at most one line more than were counted for it, and those to come are empty |
| LogFiles.OpenedIff | POST-Webserver/SimpleWebServer/src/log/log.cpp:70-77 | A log opened for append keeps its files within the limit in every run if and only if the day's first file has at most one line and the day's numbered files and those of later days have none |
| LogFiles.RestartOverfills | POST-Webserver/SimpleWebServer/src/log/log.cpp:70-77 | A log opened again on the same day after two or more lines overfills the day's file |
| LogFiles.LaterDayHasRoom | POST-Webserver/SimpleWebServer/src/log/log.cpp:70-77 | A log opened again on a later day has room |
| LogFiles.FileLog.constructor | POST-Webserver/SimpleWebServer/src/log/log.cpp:70-77 | Opening appends: the count starts at zero and the files keep their lines |
| LogFiles.FileLog.WriteLog | POST-Webserver/SimpleWebServer/src/log/log.cpp:105-165 | The synchronous write in place is that step |
| LaggingLog.LagIsBounded | POST-Webserver/SimpleWebServer/src/log/log.cpp:105-160 | With one asynchronous producer no file exceeds its limit by more than the queue's capacity and one, in every interleaving with the consumer |
| LaggingLog.LagIsReached | POST-Webserver/SimpleWebServer/inc/log.h:42-50 | For every capacity and limit there is a run in which a file reaches that bound |
| OneShot.RunKeeps | GET-WebServer/src/main.cpp:92-136 | Every run keeps each open connection in exactly one of: armed, reported, queued, with one worker, or set aside |
| OneShot.ExclusiveMeans | GET-WebServer/inc/threadpool.h:69-106 | So the queue has no duplicates, no connection has two workers, and a handled one is open, unarmed and unqueued |
| OneShot.EveryRun | GET-WebServer/src/main.cpp:92-136 | All of that, and the user count, in every run from the start |
| OneShot.OneHandlerIff | GET-WebServer/src/http_conn.cpp:28-50 | Every run keeps one handler for each connection if and only if descriptors are registered with EPOLLONESHOT |
| OneShot.DoubledIsQueuedTwice | GET-WebServer/src/main.cpp:120-123 | Without it a client that sends twice is queued twice |
| OneShot.HandleKeeps | GET-WebServer/src/main.cpp:117-134 | Each branch for a reported connection moves it to one place |
| OneShot.RearmKeeps | GET-WebServer/src/http_conn.cpp:498-515 | A worker's last act gives its connection back to the kernel |
| OneShot.OpenLaw | GET-WebServer/src/main.cpp:101-134 | A connection is opened by its accept and closed by a hang-up, a failed read or a finished write of its own, and by nothing else |
| OneShot.ClosedByItsEnd | GET-WebServer/src/main.cpp:117-131 | Over every run one that is no longer open has met such an end in it |
| OneShot.ArmedLaw | GET-WebServer/src/http_conn.cpp:28-50 | A descriptor becomes armed by its accept, by a write that would block or is kept alive and by the end of a worker's call, and disarmed by its end or by being reported |
| OneShot.QueueLaw | GET-WebServer/inc/threadpool.h:69-101 | Over every run the workers pick exactly what was queued, in order |
| OneShot.WorkerLaw | GET-WebServer/inc/threadpool.h:90-107 | A worker has what it picked until its call ends |
| OneShot.BatchLaw | GET-WebServer/src/main.cpp:93-99 | A batch is what was reported, handled from the front |
| OneShot.LostLaw | GET-WebServer/src/main.cpp:120-133 | Set aside are exactly those whose append was refused or whose event is unknown |
| OneShot.MainThread.HandleOne | GET-WebServer/src/main.cpp:117-134 | Event by event: whether the connection is closed, armed, queued or set aside; the others stay where they are |
| OneShot.MainThread.HandleAll | GET-WebServer/src/main.cpp:99-135 | The loop over a batch is its events one by one; afterwards no connection has two handlers |
| OneShot.MainThread.Append | GET-WebServer/inc/threadpool.h:69-81 | Accepts while the queue is not above its maximum; the connection is then queued or set aside, and nowhere else |
| OneShot.MainThread.CloseConn | GET-WebServer/src/http_conn.cpp:56-62 | Closing unregisters the descriptor and counts it out, and leaves it in no other place |

## Left out

- HttpConn.HttpConn.ProcessRead: after a negative Content-Length only the control flow is
  modelled, not what the strings hold, since the NUL then lands in front of the body.
- HttpConn.HttpConn.ParseContent: the sum of length and index is unbounded, so announced
  lengths within 2048 of the largest int, where the sum overflows, are not modelled. atoi
  itself is that of the GNU C library; the C standard leaves numbers beyond an int open.
- HttpConn.HttpConn.ResolveUrl: the https test follows an else, which is the same since a
  skipped http URL begins with a slash. A NULL passed to strncasecmp ends the model.
- Response.HttpResponse.ProcessWrite: texts are formatted by the caller of AddResponse.
- Response.HttpResponse.Write: unmap and re-arming are not modelled. A writev that is
  offered nothing is taken to return 0 and not EAGAIN.
- Webbench.Bench.BuildRequest: MAXHOSTNAMELEN is 64, as the system headers define it. A host
  or port that does not fit its buffer ends the model.
- Accounts.Store.DoForm: the page's file name, SQL quoting, the table's column width and
  the reuse of the URL's space for the page are not modelled; which of /2 and /3 was asked
  for is a parameter, and every request has its body. Reading past the body's NUL counts as
  having no result although the bytes there belong to the buffer.
- Accounts.LoginExactly: a lookup in the user map is one step, although it runs without the
  lock; overlapping accesses to the map have no defined meaning in C++.
- HeapTimer.HeapTimer.Push: std::priority_queue is modelled as the usual binary heap; the
  contracts say nothing a different sift order would break.
- EventLoop.Server.TimerHandler: the callbacks run after all expired timers are popped
  instead of between pops; deleting a timer object is not modelled.
- EventLoop.Server.Accept: the kernel hands out descriptors that are not open, and never
  one of 65536 or above.
- EventLoop.Server.Run: workers do not close connections. The close in process() followed
  by modfd (http_conn.cpp:616-620) and the expiry of a connection that is still queued break
  the correspondence through descriptor reuse.
- WorkerPool.EveryRun: the pool and its protocol are modelled on values, one step for each
  critical section and each semaphore call; Pools has the same operations as objects run by
  one thread. Null requests, m_stop and the destructors are not modelled.
- Pools.ConnectionPool.constructor: a connection that cannot be opened ends the process.
- Dispatcher.ProcessPool.TakeSignals: SIGTERM and SIGINT send a signal to the children,
  which comes back as SIGCHLD; pipes and the children's side are not modelled.
- BlockQueue.BlockQueue.Pop: the wait loop is in the monitor model, where consumers sleep
  and wake in any order; the object's method is the part behind it.
- LogFiles.RotationIsRight: days do not go back and are told apart by their day of the
  month; text, time stamps and fopen errors are not modelled.
- LaggingLog.LagIsBounded: one producer; more of them can lose lines and count apart from
  queueing.
- OneShot.EveryRun: workers do not close connections, as above, and the GET server's byte
  accounting in write is reduced to whether it re-arms or closes. A connection whose append
  was refused stays open and disarmed, as in the code, which ignores the refusal.
- block_queue::front, which reads the slot before the head.
- Routing of the digits 0, 1, 5 and 6, stat, mmap and file permissions: one branch each.
- Singletons, daemon start-up, sockets, HTML pages, webbench's processes and its report.
