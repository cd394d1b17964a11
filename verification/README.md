# A verified model of the version_03 web server

The server parses HTTP requests incrementally out of one buffer, answers logins and pages, reaps idle
connections with a timer list, hands connections between an epoll loop and worker threads, and logs
asynchronously. This project models those stateful parts, and the linked log queue of version_02, and proves
what they promise on all inputs and in all interleavings.

Parsing (`CStrings`, `RequestMachine`, `RequestLines`, `HeaderLines`, `RequestGrammar`, `Rendering`,
`Fragmentation`, `OpenHeads`, `HttpConnection`). `RequestMachine.Run` is one call of `process_read` as a
function of the bytes received so far. `RequestGrammar.Judge` says what a request is without cursors: cut at
CR LF, classify the first line, take all headers together, count off the body. `OneCallMeetsGrammar` connects
the two. `HttpConnection.HttpConn` is the object: a 2048-byte array edited in place, three cursors, C pointers
as indices; its `ProcessRead` is proved to answer as `Run` does, so the NULs and the appended page never touch
a byte that is still to be parsed. Bytes are modelled as characters.

When does feeding a request in pieces agree with one call on all of it? After an incomplete body the loop
still calls `parse_line`, which can move the cursor into the body. `Fragmentation.Derails` says of a prefix
when this happens: the bytes end inside the body, and the piece of body seen starts with a byte other than CR
and LF, or with CR LF. `FragmentsAgreeExactly`: a stream that ends with its body is understood in pieces as it
is in one call if and only if no proper prefix handed to a call derails. If one does, the request is never
answered (`DerailedRunStarves`).

Pages and logins (`PageSelection`, `Login`). `FormRoundTrip` goes from the rendered POST, in pieces, to the
page: exactly the name and password typed arrive, the welcome page is chosen if and only if the users hold
that password for that name, and a registration leads to the log-in page if and only if the name was free and
the insert succeeded. `FormAnsweredExactly` says for which pieces: exactly if no call before the last sees a
point strictly inside the body. `ServeForm` and `ServeFile` say it of the object, for forms and for the pages
of all keys.

Answers (`Response`, `Sending`). The bounded printer never cuts an answer, and every answer's headers, read
back by the parser above, announce exactly what follows them (`AnswerDelimitsItself`). `Sending` follows bytes
by where they are read from. `write` subtracts the cumulative count from a length that was already reduced; so
the claim that it sends exactly the response is false in general. `SentExactly`: a finished run has sent
exactly header and file if and only if at most one return of writev ended strictly inside the header.
`TwoReturnsInsideHeader` is a run that fails, and `Sender.WriteUntilDone` states the same over all calls of
`write` together.

Timers and the loop (`SortedTimers`, `TimerList`, `EventLoop`, `ActivityClock`, `ConnectionLife`,
`DescriptorReuse`). The doubly linked list refines a sorted sequence. The loop is a transition system whose
steps interleave with closing workers and passing time. `ActivityClock` tells the time of a timer's last
activity from the steps of a run, and ties expiries and reaping to it.

Threads (`ConnectionPool`, `PoolHistory`, `WorkQueue`, `WorkHistory`, `OneShot`, `HandOver`, `BlockQueue`,
`QueueProtocol`, `QueueCalls`, `AsyncLog`, `LogOrder`, `LogList`, `LogHistory`). Each protocol is a transition
system: threads with a program counter, one step for every access to shared state between the lock, semaphore
and kernel calls. Claims are about every state of every run, for any number of threads; the `...History`
modules, `QueueCalls`, `LogOrder` and `ActivityClock` tell what a run did from its steps alone, and the
`...Round` lemmas say what one thread gets done when it runs alone. `Counting` holds the counting lemmas they
share. A mutex, a semaphore and a condition wait are atomic steps; a sleeper may wake without being notified.

Where behaviour and comment disagree, the code is followed. `append` admits `m_max_requests + 1` requests
(`WorkQueue.QueueFills`). A line that parse_line finds bad leaves the request open instead of rejecting it,
and so does a body too long for the buffer: with room for one more header, an open head stays open for good if
and only if it ends in such a line, or in the empty line before such a body (`OpenHeads.StaysOpenExactly`). An
empty file closes the connection. The log loses lines in some run if and only if it is asynchronous, has room
and serves two producers or more (`AsyncLog.LossExactly`). Connections keep single owners if and only if tick
reaps nothing that is queued or in process and no worker closes its connection (`OneShot.OwnershipExactly`). A
worker's close also leaves a timer that can close a later connection (`DescriptorReuse.TimerHitsAnother`). An
answer without a file whose header is cut twice is never finished (`Sending.StuckExactly`). GetConnection
answers NULL in some run if and only if there are more threads than connections
(`ConnectionPool.NullExactly`).

Parameters of the model: the bytes given by recv, the counts taken by writev, the size of the file, the result
of the database insert, the descriptors reported by epoll, the clock, and the schedule of threads.

## Model

| member | source | states |
|---|---|---|
| `RequestMachine.ScanLineFromLineStart` | version_03/http/http_conn.cpp:174-211 | entered behind a byte other than CR, the scan stops at the first CR or LF and succeeds exactly on CR LF; the branch for an LF behind an earlier CR is unreachable |
| `RequestMachine.RunKeepsInv` | version_03/http/http_conn.cpp:386-440 | every call, open or complete, leaves start of line <= checked <= received, never stops behind a CR and never moves back; a complete request has a body exactly in content state, as long as announced |
| `RequestLines.RequestLineAccepted` | version_03/http/http_conn.cpp:259-321 | accepted are exactly the lines of three words separated by blanks, GET or POST, a path with or without http:// or https:// and a host before it, HTTP/1.1; and they mean the method and the path, "/" the default page |
| `RequestLines.OriginAloneRejected` | version_03/http/http_conn.cpp:300-313 | a scheme and host without a path are rejected |
| `HeaderLines.CaseFolds` | version_03/http/http_conn.cpp:341-357 | names are compared without regard to case: equal characters, or an upper-case letter and its lower-case one |
| `HeaderLines.ConnectionLine` | version_03/http/http_conn.cpp:341-349 | a Connection line, whatever the case and blanks, sets the flag exactly for keep-alive |
| `HeaderLines.LengthLine` | version_03/http/http_conn.cpp:351-356 | a Content-length line sets the length to what atol reads, stored in an int |
| `HeaderLines.HostLine` | version_03/http/http_conn.cpp:357-362 | a Host line sets the host to its value |
| `HeaderLines.OtherLine` | version_03/http/http_conn.cpp:363-369 | any other line changes nothing |
| `HeaderLines.AtolReads` | version_03/http/http_conn.cpp:355 | leading space, at most one sign, the digits up to anything else, in base ten and limited to 64 bits |
| `RequestGrammar.FieldsExclusive` | version_03/http/http_conn.cpp:341-362 | a header line carries at most one of the three known fields, so the order of the tests does not matter |
| `RequestGrammar.FoldIsSummary` | version_03/http/http_conn.cpp:324-370 | taking headers one by one gives: the last Content-length, the last Host, and keep-alive if any line asks for it |
| `RequestGrammar.SplitAgreesWithScan` | version_03/http/http_conn.cpp:174-211 | scanning from a line's start finds exactly the next line of the stream cut at CR LF |
| `RequestGrammar.RunEatsHeaders` | version_03/http/http_conn.cpp:386-425 | the loop in header state consumes header lines up to the first empty one, with the cursors exactly there |
| `RequestGrammar.RunShortBody` | version_03/http/http_conn.cpp:373-383 | a call that sees less than the body never accepts it, however far its scan goes into it |
| `RequestGrammar.RunAtBody` | version_03/http/http_conn.cpp:373-439 | at the first byte of a body, a call accepts exactly the counted bytes if they are there, and nothing before |
| `RequestGrammar.OneCallMeetsGrammar` | version_03/http/http_conn.cpp:386-440 | for all bytes, one call gives the verdict of the declarative parser, with the same request, body and cursor |
| `Fragmentation.HeadIsStable` | version_03/http/http_conn.cpp:400-425 | once request line and headers are there, later bytes do not change what they say |
| `Fragmentation.DecisionIsStable` | version_03/http/http_conn.cpp:386-440 | once a call decides, bytes behind the request do not change the outcome |
| `Fragmentation.ResumeInLines` | version_03/http/http_conn.cpp:174-211 | stopping anywhere in the head and going on with more bytes equals one call on all of them |
| `Fragmentation.ContentCall` | version_03/http/http_conn.cpp:400-433 | a call on an incomplete body moves the cursor into it exactly if the piece starts with a byte other than CR and LF, or with CR LF |
| `Fragmentation.Resume` | version_03/http/http_conn.cpp:386-440 | after a call that does not derail, going on equals starting again on all bytes |
| `Fragmentation.FragmentsAgree` | version_03/http/http_conn.cpp:386-440 | for every stream and split in which no call before the last derails: same verdict, request, cursors and body as one call |
| `Fragmentation.DerailedRunStarves` | version_03/http/http_conn.cpp:400-433 | if a call derails, a stream that ends with its body, or before, is never answered |
| `Fragmentation.FragmentsAgreeExactly` | version_03/http/http_conn.cpp:386-440 | for a stream ending with its body, agreement with one call holds if and only if no call before the last derails |
| `OpenHeads.WedgedStaysOpen` | version_03/http/http_conn.cpp:194-206 | behind an open head whose first unfinished break is a lone LF, or a CR without its LF, every call answers NO_REQUEST, whatever follows |
| `OpenHeads.CommittedHead` | version_03/http/http_conn.cpp:329-340 | a head whose unfinished line is the empty one announces, wherever it ends, the length of the headers so far |
| `OpenHeads.TooLongStaysOpen` | version_03/http/http_conn.cpp:373-383 | in front of a body that must end behind the buffer, every call answers NO_REQUEST as long as the bytes fit the buffer |
| `OpenHeads.OpenHeadDecided` | version_03/http/http_conn.cpp:386-440 | any other open head with 23 bytes free is decided by bytes that fit the buffer, and answered unless the body's length or end has no defined meaning |
| `OpenHeads.StaysOpenExactly` | version_03/http/http_conn.cpp:386-440 | an open head with 23 bytes free stays open, whatever bytes the buffer still takes, if and only if its last line is bad, or is the empty one in front of a body too long for the buffer |
| `OpenHeads.NeverAnsweredExactly` | version_03/http/http_conn.cpp:386-440 | and it is never answered if and only if besides these the body that must follow has no defined length or end |
| `OpenHeads.WedgedInPieces` | version_03/http/http_conn.cpp:386-440 | from a bad line on no call of any sequence of pieces decides |
| `OpenHeads.TooLongInPieces` | version_03/http/http_conn.cpp:386-440 | nor, in front of a body too long for the buffer, of any pieces that fit it |
| `HttpConnection.HttpConn.Init` | version_03/http/http_conn.cpp:150-170 | the machine starts afresh and the buffer is all NUL |
| `HttpConnection.HttpConn.ReadOnce` | version_03/http/http_conn.cpp:215-234 | received bytes are appended and nothing parsed changes; a full buffer fails; a failed recv moves the cursor back by one |
| `HttpConnection.HttpConn.ParseLine` | version_03/http/http_conn.cpp:174-211 | from any cursor: the line found by the scan, exactly its two end bytes overwritten, nothing else |
| `HttpConnection.HttpConn.NextLine` | version_03/http/http_conn.cpp:174-211 | between steps of the loop the line is cut off at its CR LF, the request parsed so far and all bytes from the cursor on are unchanged |
| `HttpConnection.HttpConn.ParseRequestLineAt` | version_03/http/http_conn.cpp:259-321 | method and URL in the edited buffer are those of the line's text; no byte outside the line changes; twelve bytes from the URL on lie below the cursor |
| `HttpConnection.HttpConn.ParseTargetAt` | version_03/http/http_conn.cpp:286-316 | URL, version, scheme and the appended judge.html stay below the cursor; for a bare "/ HTTP/1.1" the last NUL is at the cursor's predecessor |
| `HttpConnection.HttpConn.CutWord` | version_03/http/http_conn.cpp:265-294 | the word before the first blank and the text behind the blanks become two strings by one NUL |
| `HttpConnection.HttpConn.SkipScheme` | version_03/http/http_conn.cpp:300-310 | the pointer moves to the path of an absolute-form URL, the end of the string stays |
| `HttpConnection.HttpConn.AppendDefaultPage` | version_03/http/http_conn.cpp:315-316 | a URL of length one becomes "/judge.html", at most eleven bytes behind it written; any other is unchanged |
| `HttpConnection.HttpConn.ParseHeaderAt` | version_03/http/http_conn.cpp:341-369 | the fields read through the pointers are those of the header line's text |
| `HttpConnection.HttpConn.HandleLine` | version_03/http/http_conn.cpp:402-425 | one complete line takes the object where the specification's line step goes, error and end of request included |
| `HttpConnection.HttpConn.ParseContentAt` | version_03/http/http_conn.cpp:373-383 | a complete body is terminated by one NUL at its end, and nothing else is written |
| `HttpConnection.HttpConn.HandleBody` | version_03/http/http_conn.cpp:402-434 | the body handed on is the received one, byte for byte |
| `HttpConnection.HttpConn.ProcessRead` | version_03/http/http_conn.cpp:386-440 | the in-place loop terminates and answers as the specification does on the bytes received; the cursors stay in order and no unscanned byte changes but the body's NUL |
| `HttpConnection.HttpConn.ReceiveAll` | version_03/http/http_conn.cpp:215-440 | pieces received and parsed one after the other end as one call on everything, unless a piece derails |
| `HttpConnection.HttpConn.ExtractForm` | version_03/http/http_conn.cpp:466-476 | the two copied fields are name and password by position |
| `HttpConnection.HttpConn.DoRequest` | version_03/http/http_conn.cpp:442-555 | the page and the users are those of the selection function, although the URL is overwritten and its key read again from the same address |
| `HttpConnection.HttpConn.Serve` | version_03/http/http_conn.cpp:215-555 | pieces received, parsed and answered: do_request is reached exactly if the specification completes, and the page is that of the request and body it gives |
| `PageSelection.KeyAfterForm` | version_03/http/http_conn.cpp:497-555 | whatever is found where the old key stood, the page a form leads to is not replaced by a fixed page |
| `PageSelection.RegisteredLogsIn` | version_03/http/http_conn.cpp:479-513 | registering changes no other account; the same form then logs in if the name was free or had that password, even when the insert failed |
| `Rendering.RequestLineReadBack` | version_03/http/http_conn.cpp:259-321 | every rendered request line is parsed back to its method and URL, "/" to the default page |
| `Rendering.RenderedHeadParses` | version_03/http/http_conn.cpp:386-425 | any rendered request line and headers are read back, and the body starts where it was put |
| `Rendering.LengthHeaderReadBack` | version_03/http/http_conn.cpp:351-356 | every decimal Content-length up to INT_MAX is read back |
| `Login.FormReadBack` | version_03/http/http_conn.cpp:466-476 | a rendered form gives back the name without '&' and the password |
| `PageSelection.FieldsByPosition` | version_03/http/http_conn.cpp:466-476 | in any body the fields go by position: five characters, the name up to '&', nine characters, the password, each cut at a NUL and at most 99 long |
| `PageSelection.LoginByKey` | version_03/http/http_conn.cpp:507-513 | a form posted to key 2 selects the welcome page if and only if name and password match |
| `PageSelection.RegistrationByKey` | version_03/http/http_conn.cpp:479-505 | a form posted to key 3 selects the log-in page if and only if the name was free and the insert succeeded; the name is known from then on |
| `PageSelection.FilesByKey` | version_03/http/http_conn.cpp:516-561 | every other request gets the page of its key, 0 register, 1 log, 5 picture, 6 video, 7 fans, and without such a key the file of its URL, of which 169 characters fit |
| `Login.FormRoundTrip` | version_03/http/http_conn.cpp:259-513 | from the pieces of a rendered login or registration, among any other headers, to exactly the fields and the page |
| `Login.ServeForm` | version_03/http/http_conn.cpp:215-555 | the object, handed the pieces of a login or registration, answers with that page and knows the users that should be known |
| `Login.PlainRequestArrives` | version_03/http/http_conn.cpp:386-440 | a request without a Content-length arrives, in whatever pieces, with its method and URL and no body |
| `Login.ServeFile` | version_03/http/http_conn.cpp:215-555 | the object, handed the pieces of such a request, answers with the page of its key or the file of its URL |
| `Login.FormAnsweredExactly` | version_03/http/http_conn.cpp:386-440 | for all pieces of a form below the buffer size: it is answered, with its method, URL and body, if and only if no call before the last sees a point strictly inside the body, and otherwise never |
| `CStrings.PrintedNumberReadBack` | version_03/http/http_conn.cpp:351-356 | atol of a printed 32-bit number is that number |
| `Response.ResponseBuffer.AddResponse` | version_03/http/http_conn.cpp:652-669 | text is appended whole or the stored text is unchanged, and the result tells which |
| `Response.ResponseBuffer.AddHeaders` | version_03/http/http_conn.cpp:674-695 | if they fit, the three header lines are appended whole and in order |
| `Response.ResponseBuffer.ProcessWrite` | version_03/http/http_conn.cpp:700-759 | it succeeds exactly for 500, 404, 403 and a file that is not empty; the stored bytes are that code's first line, headers, and form, uncut; and iovecs and counter are those from which sending the text and then the file starts |
| `Response.HeadersFit` | version_03/http/http_conn.cpp:674-695 | the printed headers of any int take at most sixty bytes |
| `Response.HeadersReadBack` | version_03/http/http_conn.cpp:674-695 | whatever follows, the bytes of add_headers parsed in header state give the same length and flag at the empty line where they end |
| `Response.AnswerDelimitsItself` | version_03/http/http_conn.cpp:700-759 | every answer has the literal first line and content of its code, and its headers, read back by the parser, give the linger flag and a length that is exactly what follows them |
| `Sending.Accept` | version_03/http/http_conn.cpp:613-630 | sent plus left is constant over one writev, and the iovecs never promise more than is left |
| `Sending.RunOutcome` | version_03/http/http_conn.cpp:596-649 | from any sound state: with at most one return inside the header all later states are sound, with more none is |
| `Sending.SentExactly` | version_03/http/http_conn.cpp:596-649 | sent plus left is constant; with at most one return inside the header the bytes sent are a prefix of the response and a finished run sent exactly it, otherwise a finished run did not |
| `Sending.RunsEnd` | version_03/http/http_conn.cpp:596-649 | a run has at most as many positive returns as there are bytes to send |
| `Sending.StuckExactly` | version_03/http/http_conn.cpp:596-649 | a run in which writev is offered nothing more has something left if and only if the answer is a header alone and two returns ended strictly inside it; such a run is never finished |
| `Sending.StuckForever` | version_03/http/http_conn.cpp:596-649 | from there on, whatever writev answers, nothing is sent and write loops |
| `Sending.StuckHeader` | version_03/http/http_conn.cpp:616-630 | returns of 3, 3 and 1 leave the last three bytes of a ten-byte answer unsent |
| `Sending.TwoReturnsInsideHeader` | version_03/http/http_conn.cpp:616-630 | returns of 3, 3 and 7 for ten header bytes send a wrong byte |
| `Sending.ReentryIsInvisible` | version_03/http/http_conn.cpp:601-608 | an EAGAIN between two returns changes nothing of what is sent |
| `Sending.ReplayJoins` | version_03/http/http_conn.cpp:583-650 | two runs of counts, one after the other, are one run |
| `Sending.CallsJoin` | version_03/http/http_conn.cpp:583-650 | the replies of two calls make the transfer, and the counts, of all of them together |
| `Sending.Sender.Write` | version_03/http/http_conn.cpp:583-650 | the loop's state is that of the replies consumed; each way out has its result, its epoll interest, its unmapping and its reset |
| `Sending.Sender.WriteUntilDone` | version_03/http/http_conn.cpp:583-650 | over all calls of write until one does not end in EAGAIN: what is sent is a prefix of the response with at most one return inside the header, and a finished response is exactly header and file if and only if that holds |
| `Sending.Sender.Advance` | version_03/http/http_conn.cpp:613-630 | the bookkeeping behind one writev is the specification's step |
| `SortedTimers.InsertSorted` | version_03/timer/lst_timer.h:148-172 | insertion keeps order and entries, and puts the new one behind all that are not later |
| `SortedTimers.AdjustKeepsAll` | version_03/timer/lst_timer.h:63-87 | out and in again: sorted, and exactly the adjusted entry exchanged |
| `SortedTimers.ExpiredSplits` | version_03/timer/lst_timer.h:130-136 | in a sorted list the entries up to the first unexpired one are exactly the expired ones |
| `TimerList.TimerList.AddTimer` | version_03/timer/lst_timer.h:43-62 | stable sorted insertion on the linked list, null and empty list included, even behind a tick that emptied it |
| `TimerList.TimerList.AddFrom` | version_03/timer/lst_timer.h:148-172 | the search from any node not later ends in the place of sorted insertion, with all links agreeing |
| `TimerList.TimerList.AdjustTimer` | version_03/timer/lst_timer.h:63-87 | after its expiry has grown, a timer is removed and stably inserted; nothing lost or doubled |
| `TimerList.TimerList.DelTimer` | version_03/timer/lst_timer.h:88-118 | exactly this timer leaves, and head, tail, prev and next agree |
| `TimerList.TimerList.Tick` | version_03/timer/lst_timer.h:119-145 | exactly the expired timers are called back, once each and in order, and only they leave; tail may stay stale on an empty list |
| `EventLoop.StepKeepsInv` | version_03/main.cpp:186-366 | every step of main, of workers that close and of time keeps the invariant of registrations, timers, order and counts |
| `EventLoop.NoStaleTimer` | version_03/main.cpp:186-366 | in every run a registered or pending client descriptor has its timer in the list, and main never uses a timer that is not |
| `EventLoop.TimersCounted` | version_03/main.cpp:77-85 | between operations the list has m_user_count timers plus one for each decrement done by close_conn |
| `EventLoop.ListIsByLastActivity` | version_03/main.cpp:313-322 | the list is always in order of last activity |
| `EventLoop.TickReapsExactly` | version_03/main.cpp:362-366 | a tick ends having called back, once and in order, exactly the timers expired at its time |
| `ActivityClock.ExpiresAfterLastActivity` | version_03/main.cpp:313-350 | in every run, told from its steps, each timer of the list expires 15 seconds after its last activity by the clock |
| `ActivityClock.TickFiresByLastActivity` | version_03/timer/lst_timer.h:119-145 | a tick that began at t has called back, when it ends, exactly the timers whose last activity was at t - 15 or before, in list order |
| `ConnectionLife.AcceptCompletes` | version_03/main.cpp:196-220 | an accept, below 65536 users, leaves the descriptor open, registered and counted, its new timer last, 15 seconds ahead, and nothing else changed |
| `ConnectionLife.TrafficCompletes` | version_03/main.cpp:313-322 | traffic moves exactly its timer to the end, 15 seconds ahead |
| `ConnectionLife.HangupCompletes` | version_03/main.cpp:256-266 | a hang-up closes, unregisters and discounts the descriptor, and takes exactly its timer out |
| `ConnectionLife.ReapCompletes` | version_03/timer/lst_timer.h:136-143 | so does a reap, with the first timer |
| `DescriptorReuse.QuietRunsFireCurrent` | version_03/main.cpp:77-85 | as long as no worker closes a connection, every timer in the list, and so every timer that fires, is the current one of its descriptor |
| `DescriptorReuse.TimerHitsAnother` | version_03/main.cpp:77-85 | with one such close, for every descriptor, some run fires the old timer and closes a later connection whose own timer has not expired |
| `ConnectionPool.StepKeepsInv` | version_03/CGImysql/sql_connection_pool.cpp:65-102 | every step of every thread keeps mutual exclusion, the semaphore's account, the connections and the lagging counters |
| `ConnectionPool.PoolIsSafe` | version_03/CGImysql/sql_connection_pool.cpp:65-102 | the list never runs empty under pop_front; list size is semaphore plus threads on their way; free and held are the initial connections; with the lock free the counters are right |
| `ConnectionPool.HeldByOne` | version_03/CGImysql/sql_connection_pool.cpp:138-147 | no connection is held twice, or held and free |
| `ConnectionPool.NeverNull` | version_03/CGImysql/sql_connection_pool.cpp:69-72 | with at least as many connections as threads the unlocked test never sees an empty list |
| `ConnectionPool.NullExactly` | version_03/CGImysql/sql_connection_pool.cpp:65-84 | some run answers NULL if and only if there are more threads than connections |
| `PoolHistory.HandedOutInOrder` | version_03/CGImysql/sql_connection_pool.cpp:65-102 | in every run, told from its steps, connections are handed out in the order in which they came: the initial ones, then those given back |
| `PoolHistory.GetRound` | version_03/CGImysql/sql_connection_pool.cpp:65-84 | a thread alone gets the first free connection, and the counters follow |
| `PoolHistory.ReleaseRound` | version_03/CGImysql/sql_connection_pool.cpp:87-102 | a thread alone puts its connection behind the free ones, and the counters follow |
| `WorkQueue.StepKeepsInv` | version_03/threadpool/threadpool.h:67-110 | every step of producers and workers keeps mutual exclusion, the semaphore's account and the queue's contents |
| `WorkQueue.QueueConserves` | version_03/threadpool/threadpool.h:67-110 | accepted is dequeued followed by queued, in append order; a woken worker never finds the queue empty; at most max + 1 are queued |
| `WorkHistory.EveryRequestAccounted` | version_03/threadpool/threadpool.h:67-110 | in every run, told from its steps: each request offered is refused, accepted or still with its producer; each request dequeued, if not NULL, is processed or with a worker on the way to it; NULL is never processed |
| `WorkHistory.AppendRound` | version_03/threadpool/threadpool.h:67-80 | a producer alone queues its request, or is refused with more than max queued, and nothing else changes |
| `WorkHistory.WorkRound` | version_03/threadpool/threadpool.h:89-110 | a worker alone takes the first request, processes it if it is not NULL, and is back at the semaphore |
| `WorkQueue.OneInCritical` | version_03/threadpool/threadpool.h:67-110 | at most one thread is between lock and unlock |
| `WorkQueue.QueueFills` | version_03/threadpool/threadpool.h:71-76 | the bound is met: a run fills the queue with max + 1 requests |
| `OneShot.OneOwner` | version_03/main.cpp:303-360 | in tame runs a connection is with at most one of main, queue and workers, queued at most once, and cannot be reported while handed over |
| `OneShot.RearmGivesUp` | version_03/http/http_conn.cpp:760-774 | after a worker's re-arming the connection is armed and with nobody, if no worker has closed one |
| `HandOver.AcceptRound` | version_03/main.cpp:196-220 | an accepted connection is open and armed |
| `HandOver.ReadRound` | version_03/main.cpp:303-332 | a connection reported and read is disarmed and last in the queue, only disarmed if the pool refuses it, closed if reading fails |
| `HandOver.WorkerRound` | version_03/http/http_conn.cpp:760-774 | an idle worker takes the first connection of the queue and arms it when done |
| `HandOver.WriteRound` | version_03/http/http_conn.cpp:583-650 | after writing a connection is armed again, at once, and stays so if it is kept; it is closed if it is not kept or writing fails |
| `HandOver.CloseRound` | version_03/main.cpp:256-266 | a hang-up reported, or a reap, closes the connection and changes nothing else |
| `OneShot.LeftBehindBreaks` | version_03/main.cpp:186-360 | from any state in which the queue or a worker has a connection already closed, main can finish its batch, accept the descriptor anew and have it too, and queue it again |
| `OneShot.ReapingHandedOverBreaks` | version_03/main.cpp:362-366 | in any state, reaping a connection that is queued or in process can give it two owners |
| `OneShot.WorkerCloseBreaks` | version_03/http/http_conn.cpp:768-773 | in any state where a worker has a connection to itself, closing it and going on can give it two owners, with no reap at all |
| `OneShot.OwnershipExactly` | version_03/main.cpp:186-366 | in every state a tame run reaches, a step leaves all connections with single owners in all tame continuations, if and only if it is tame: no reap of a handed-over connection, and no close by a worker |
| `BlockQueue.PushAppends` | version_03/log/block_queue.h:102-118 | push on the circular array appends, or changes nothing when full |
| `BlockQueue.PopRemovesFirst` | version_03/log/block_queue.h:120-137 | pop gives the first element and leaves the rest |
| `BlockQueue.BackIsLast` | version_03/log/block_queue.h:91-100 | back leads to the last element |
| `BlockQueue.BlockQueue.constructor` | version_03/log/block_queue.h:16-26 | from the -1/-1 start the queue is empty |
| `BlockQueue.BlockQueue.PushLocked` | version_03/log/block_queue.h:105-117 | the array's contents gain the value at the end exactly if there was room, and the result tells |
| `BlockQueue.BlockQueue.PopLocked` | version_03/log/block_queue.h:129-136 | value and remaining contents are the old contents |
| `BlockQueue.BlockQueue.ClearLocked` | version_03/log/block_queue.h:36-42 | the queue is empty |
| `BlockQueue.BlockQueue.Full` | version_03/log/block_queue.h:60-68 | true exactly if the contents fill the array |
| `BlockQueue.BlockQueue.Back` | version_03/log/block_queue.h:91-100 | the last element, or false on an empty queue |
| `QueueProtocol.FirstInFirstOut` | version_03/log/block_queue.h:102-137 | in any legal history what left, followed by what is there, is what was accepted |
| `QueueProtocol.StepKeepsInv` | version_03/log/block_queue.h:36-137 | every single field access of push, pop and clear keeps the ring related to the FIFO of the answers given so far |
| `QueueProtocol.RingRefinesFifo` | version_03/log/block_queue.h:36-137 | in every interleaving, waits and clears included, the answers are those of a bounded FIFO, no access leaves the array, and with the lock free the ring holds the FIFO's items |
| `QueueProtocol.NobodySleepsOnItems` | version_03/log/block_queue.h:115-127 | no wake-up is lost: with no broadcast under way, nobody sleeps unnotified on a queue that holds items |
| `QueueCalls.CallsHaveTheirEffects` | version_03/log/block_queue.h:36-137 | in every run, told from its steps, each thread's calls have had exactly one effect each on the FIFO, their own and in order, and answer what the effect was |
| `QueueCalls.PushRound` | version_03/log/block_queue.h:102-118 | a thread alone pushes its value and notifies all sleepers, and is back |
| `QueueCalls.RefusedRound` | version_03/log/block_queue.h:105-109 | on a full queue it only notifies them |
| `QueueCalls.PopRound` | version_03/log/block_queue.h:120-137 | a thread alone gets the first item and is back |
| `QueueCalls.SleepRound` | version_03/log/block_queue.h:121-127 | on an empty queue it sleeps, and the lock is free |
| `QueueCalls.ClearRound` | version_03/log/block_queue.h:36-42 | a thread alone clears the queue |
| `AsyncLog.StepKeepsInv` | version_03/log/log.cpp:131-140 | every step keeps the count of every line |
| `AsyncLog.LinesConserved` | version_03/log/log.cpp:131-140 | lines produced are those in producers' hands, queued, in the writer's hand, written, and lost between full and push |
| `AsyncLog.OneProducerLosesNone` | version_03/log/log.h:40-47 | with one producer no line is lost |
| `AsyncLog.SyncWritesAll` | version_03/log/log.cpp:131-140 | without the asynchronous mode, or without room, nothing is queued or lost |
| `AsyncLog.TwoProducersLose` | version_03/log/log.cpp:131-134 | two or more producers and any room: a run in which a line is lost between full and push |
| `AsyncLog.LossExactly` | version_03/log/log.cpp:131-140 | some run loses a line if and only if the log is asynchronous, has room and serves two producers or more |
| `LogOrder.WrittenInOrder` | version_03/log/log.h:40-47 | in every run, told from its steps, lines pushed leave the queue and are written in the order of the pushes, and the file holds exactly the lines written, in the order of the steps |
| `LogOrder.GivenConserved` | version_03/log/log.cpp:131-140 | the lines given to write_log are those with producers, queued, with the writer, in the file and lost |
| `LogOrder.ProducerRound` | version_03/log/log.cpp:131-140 | a line is queued if the log is asynchronous and there is room, and otherwise written at once |
| `LogOrder.WriterRound` | version_03/log/log.h:42-46 | the writer moves the first line of the queue to the file |
| `LogList.StepKeepsInv` | version_02/bin/log.c:29-160 | every single access of producers and consumer keeps the list, the lock and the nodes in order |
| `LogList.UnlockedReadIsSafe` | version_02/bin/log.c:103-150 | between the consumer's test and its removal no producer's step changes head, and the pointer it read is head |
| `LogList.ListRefinesFifo` | version_02/bin/log.c:29-160 | no null pointer is followed; removal is in push order; the message copied is the one removed; with the lock free, size is the length of the chain |
| `LogHistory.CopiesWhatWasPushed` | version_02/bin/log.c:29-137 | in every run, told from its steps, the messages copied are a prefix of those given to push_log, in the order in which the calls linked their nodes in |
| `LogHistory.ProducerRound` | version_02/bin/log.c:29-67 | a producer alone links a node with its message in, behind the tail or as the only one, and is back |
| `LogHistory.ConsumerRound` | version_02/bin/log.c:88-159 | the consumer alone, with anything queued, copies the first message, removes its node, and is back |

## Left out

- Undefined behaviour of C has the outcomes `Undefined` and `NoDefinedPage`, not a meaning: a negative Content-length or one within 2048 of INT_MAX, a body whose NUL would lie at or behind the buffer's end, a form without '&' or body, fields and URLs larger than their arrays.
- An absolute-form URL without a later '/' is taken as a bad request, as line 312 of http_conn.cpp intends; the code passes a null pointer to strncasecmp first.
- Bytes above 127: characters are compared and copied, and nothing depends on a byte's sign.
- http_conn is modelled in three objects, the reader `HttpConn`, the printer `ResponseBuffer` and the sender `Sender`; that they are one object is not modelled, only that the printer leaves the sender's start.
- HttpConnection.HttpConn.Init: resets the reader's fields only; the write buffer, the file name and the send counters are in other objects or not modelled.
- HttpConnection.HttpConn.SkipScheme: the null pointer that strchr gives for an absolute-form URL without a later '/' is the empty string at the line's end, which the next test rejects as it would the null pointer.
- HttpConnection.HttpConn.DoRequest: ends with the choice of the page; the file system's answers (missing, forbidden, directory) and mmap are not modelled.
- Sockets, epoll, mmap, stat, signals, the clock and MySQL are parameters of the model or left out.
- The edge-triggered variants, pipelined requests behind the one answered, and hang-ups reported on the listening socket or the pipe.
- OpenHeads.StaysOpenExactly: with less than 23 bytes of the buffer free only the sufficient half is stated (`WedgedStaysOpen`, `TooLongStaysOpen`); what the last bytes can still decide then depends on each byte of an unfinished header.
- `EventLoop` and the thread protocols are transition systems on values, not methods on shared objects; pushes and pops of the work queue and of the connection list are single steps under the lock, as the std::list operations are not this repository's code. Counter updates of m_user_count are atomic steps.
- `AsyncLog` works over the queue as a FIFO whose operations are atomic, which is what `QueueProtocol.RingRefinesFifo` proves of the circular array; the m_mutex around fputs is part of the atomic write.
- `block_queue::front`, which reads one place before the first element, and `connection_pool::DestroyPool`, which unlocks twice.
- A failing pthread_cond_wait, stop flags, destructors, and timed behaviour of the locks.
- version_02's add_logbuf, file switching, epoll.c, config.c and handle_request.c, and all of version_01: plumbing, or easy members.
- Log formatting and file rotation, the HTML pages, and loading the users table.
