# FileHub: verified models of the file server and of the libraries it is built on

FileHub is a file-sharing server. Its requests come in through an incremental HTTP/1.x parser on top of an
event-driven network library; its files are kept once per MD5 value and counted by reference in two SQL
tables; its client side speaks HTTP through a header-only library. This project models the parts of that
system in which a mistake would be hardest to see, and proves what they keep in every run.

| modules | what they model |
|---|---|
| `HttpSyntax`, `HttpParser`, `HttpMachine` | the request parser: states, marks, callbacks, bulk bodies; `HttpMachine` is the object with its loops |
| `HttpSplit`, `HttpSplitTheorem`, `HttpSplitErrors` | the same parser without marks, one byte at a time, split invariance, and when it holds for a run that ends in an error |
| `HttpMethods`, `HttpLengths`, `HttpFields`, `HttpHeads`, `HttpPipelines` | method words; Content-Length and chunk sizes; header lines and the flags they set; whole heads; streams of requests on one connection |
| `HttpWrapper`, `HttpCountedBody`, `HttpChunked` | the wrapper that parses the unconsumed buffer again on each read; counted bodies; the client's chunked writer against the parser |
| `HttpUrl`, `HttpUrlLabels` | the URL splitter, and what the fields of an accepted URL are |
| `Calendar`, `TimeZones` | Julian day numbers, broken-down time, local time over a transition table |
| `ReferenceCounts`, `ReferenceSafety`, `StorageLedger`, `FileServer`, `ServerRuns` | upload, save, delete and instant-upload requests over the two tables and the file storage, one statement at a time; the handlers as methods; runs from the empty server in which a reference is lost |
| `TimerQueues`, `TimerQueueClass` | the timer queue: two indexes, manual freeing, callbacks that add and cancel timers |
| `AsyncLogs`, `AsyncLogClass` | the asynchronous log with its four recycled buffers |
| `EventLoops`, `EventLoopClass` | the event loop's wakeups and queued functors |
| `TcpConnections`, `TcpConnectionClass` | the sending side of a connection |
| `Md5`, `Md5Class` | streaming MD5 (RFC 1321, sections 3.1 to 3.4) for any block function |
| `ByteBuffer`, `Base64` | the network buffer, base64 (RFC 4648, section 4) |
| `Multipart`, `MultipartHeaders`, `MultipartNames`, `MultipartTheorem`, `MultipartLayout`, `MultipartExact`, `MultipartClass` | multipart form data (RFC 2046, section 5.1.1): the writer, the incremental parser, and the readers of its header lines |

Where the source changes an object or runs a loop, the model has a class or a method with a loop, proved
equal to a function; the theorems are about the functions and about whole runs of them. Concurrent code is
a state machine whose steps are the statements, or the stretches between taking and releasing a lock, and
the theorems hold for every interleaving.

Inputs that the program takes from outside are parameters: the outcome of an SQL statement, of a wait for
the lock, of a storage command or of a write; the bytes a descriptor holds; the clock; the address an
allocator returns; what a timer's callback or a queued functor does.

Where the code does not do what its text suggests, the model follows the code; a lemma gives an input on which
it fails, and another says exactly when it holds:

- an HTTP run that ends in an error delivers the same bytes in every cut if and only if nothing was being
  collected when it failed, or it failed on the first byte of the call (`CutsAgreeExactly`, `ErrorLosesBytes`);
- a length is read as its value if and only if that is below 2^64 - 1 (`LengthIsExact`, `ALengthWraps`);
- a method is read from its name if and only if it is not M-SEARCH, which the table misspells (`ReadFromItsName`);
- a repeated local time finds its earlier instant if and only if the transition is interior (`EarlierIffInterior`);
- a count covers its references if and only if the leaks do not sum up below zero (`CoveredExactly`,
  `TwoDeletesFromTheStart`), and one such leak is the instant-upload request, which raises the count and then
  reports failure (`Conservation`);
- a record's file is stored if and only if the upload that wrote the record did not fail on its row and then
  remove the file (`FileLedger`, `LostFileFromTheStart`);
- the event loop sleeps on a queued functor if and only if every queued functor was pushed by its own thread
  outside the loop and every promised wakeup has been consumed (`SleepsExactly`, `QueuedBeforeTheLoop`);
- taking an MD5 digest leaves the message if and only if fewer than 56 bytes wait or they are what the padding
  writes (`ResumedExactly`);
- a multipart form in pieces is read, contents and header information, as it was written if and only if the first
  piece that is not empty holds the whole opening delimiter (`FormExactly`; the contents alone also when the first
  item's content type forms a delimiter, `PartsExactly`); otherwise a form of two items can be accepted with the
  first part missing (`OneOfTwoParts`);
- the name, file name and content type that a part was given are read back if and only if the names hold no
  semicolon, equals sign or line end and the type has no blank at an end (`InfoIsRead`);
- the asynchronous log loses nothing while fewer than thirteen buffers' worth of bytes are appended between two
  collections (`ModerateRateLosesNothing`), and at thirteen it can (`ThirteenBuffersAreTooMany`).

## Model

| member | source | states |
|---|---|---|
| HttpParser.Execute | application/filehub/http_parser.cc:605-2098 | a call keeps the parser's invariant (index inside the matched word, lengths in 64 bits, chunk states only with the chunked flag) unless it sets an error, and more header bytes than the limit are counted only together with HPE_HEADER_OVERFLOW |
| HttpParser.Switch | application/filehub/http_parser.cc:687-2084 | one pass of the switch: at most one mark is outstanding and it fits the state, each re-execution lowers the state's rank, a failure makes no callback |
| HttpParser.FourExecutionsAtMost | application/filehub/http_parser.cc:683-685 | no byte runs through the switch more than four times, the second pass for the last byte of a body included |
| HttpMachine.RequestParser.Execute | application/filehub/http_parser.cc:605-2098 | the imperative parser, with its fields and its list of callbacks, is the function Execute |
| HttpMachine.RequestParser.ExecuteLoop | application/filehub/http_parser.cc:668-2098 | the loop over the bytes, with the marks in local variables and the callbacks for marks left over |
| HttpMachine.RequestParser.ExecuteByte | application/filehub/http_parser.cc:672-2084 | one byte with all its re-executions |
| HttpMachine.RequestParser.ExecuteBulk | application/filehub/http_parser.cc:1887-1933 | a body taken many bytes at a time |
| HttpSplit.ExecuteRefinesRun | application/filehub/http_parser.cc:605-2098 | the parser with marks and bulk bodies does what the byte-by-byte machine without marks does |
| HttpSplit.RunConcat | application/filehub/http_parser.cc:668-2098 | running over a concatenation is running over its parts |
| HttpSplit.BulkRun | application/filehub/http_parser.cc:1887-1933 | taking a body in bulk is taking it byte by byte |
| HttpSplitTheorem.SplitInvariance | application/filehub/http_parser.cc:605-2098 | split invariance: for a run that takes all bytes without error, every cut into nonempty pieces ends in the same parser and makes the same callbacks once adjacent data is joined |
| HttpSplitTheorem.CleanCallTakesAll | application/filehub/http_parser.cc:2082-2098 | without an error and with upgrade clear, a call takes every byte |
| HttpSplitTheorem.SplitOnError | application/filehub/http_parser.cc:2091-2098 | on an error, split and unsplit agree on the parser and the offset, and either stream is the true one short of bytes of the kind being collected |
| HttpSplitErrors.CutsAgreeExactly | application/filehub/http_parser.cc:2091-2098 | for a run that ends in an error: every cut into nonempty pieces makes the callbacks of the whole, joined, if and only if no octets were being collected when it failed or it failed on the first byte |
| HttpSplitErrors.LastIsReadable | application/filehub/http_parser.cc:2082-2098 | the state in which it failed is the parser's state after the call's consumed bytes alone |
| HttpSplitErrors.UpToTheError | application/filehub/http_parser.cc:668-2098 | a failed run is a run without error up to the failing byte, and a step that fails on it |
| HttpSplitErrors.CallWithholds | application/filehub/http_parser.cc:2091-2098 | a call that fails while it collects octets, later than on its first byte, delivers less than the run without marks |
| HttpSplitErrors.CutAtTheError | application/filehub/http_parser.cc:2082-2098 | cut before the failing byte, everything is delivered |
| HttpSplitErrors.ErrorLosesBytes | application/filehub/http_parser.cc:2091-2098 | the request line GET /a followed by the byte 1 delivers its URL when cut before that byte and not when whole |
| HttpMethods.MethodIsSpelled | application/filehub/http_parser.cc:1003-1137 | a word accepted as a method is the text of the method it is taken for, M-SEARCH aside |
| HttpMethods.EveryMethodIsRead | application/filehub/http_parser.cc:961-1137 | every method of the table except M-SEARCH is read as itself, through all changes of guess |
| HttpMethods.MethodIsRead | application/filehub/http_parser.cc:935-1137 | the same from any parser that waits for a request: whatever came before, flags and length are as new and the message has begun |
| HttpMethods.MSearchIsRefused | application/filehub/http_parser.cc:1003-1137 | the bytes M-SEARCH and a space end in an error |
| HttpMethods.ReadFromItsName | application/filehub/http_parser.cc:961-1137 | a method is read from its proper name if and only if it is not M-SEARCH |
| HttpFields.SeenExactly | application/filehub/http_parser.cc:1404-1549 | a header name is taken for Connection, Proxy-Connection, Content-Length, Transfer-Encoding or Upgrade exactly when it is that name, in any case of letters |
| HttpFields.LineIsRead | application/filehub/http_parser.cc:1350-1776 | a header line with any other name and any value: name and value are delivered, and the flags become what the line says: chunked, close, keep-alive or upgrade, and nothing else changes them |
| HttpFields.LengthLineIsRead | application/filehub/http_parser.cc:1665-1688 | a Content-Length line gives the parser the number that its digits are read as |
| HttpFields.NextLine | application/filehub/http_parser.cc:1766-1776 | a line end is followed by a new line when the next byte is not blank |
| HttpHeads.RequestLineIsRead | application/filehub/http_parser.cc:935-1348 | the request line of any method of the table, any accepted URL and HTTP/1.0 to 1.9, from any parser that waits for a request |
| HttpHeads.LinesAreRead | application/filehub/http_parser.cc:1350-1776 | any number of header lines: the flags and the length are those of the lines, one after the other |
| HttpHeads.HeadIsRead | application/filehub/http_parser.cc:935-1885 | a whole head: the parser then stands at a chunk size, at a counted body, or, with the message complete, where it waits for the next request or for the connection to close, as flags, length and version say |
| HttpHeads.FlagLines | application/filehub/http_parser.cc:1631-1764 | Transfer-Encoding: chunked, Connection: close and Connection: keep-alive set their flags, in any case of letters |
| HttpHeads.BodilessRequest | application/filehub/http_parser.cc:1830-1885 | a request without a body is complete with its head, and the connection is kept exactly as version and Connection lines say |
| HttpHeads.ChunkedRequest | application/filehub/http_parser.cc:1830-2060 | client to server from a fresh parser: a head with the chunked line and what the client writes for any payloads are read as URL and concatenation of the payloads, complete with the last byte |
| HttpHeads.CountedRequest | application/filehub/http_parser.cc:1830-1933 | after a head with a length the next bytes are the body, complete if and only if all are there |
| HttpHeads.TunnelLeaves | application/filehub/http_parser.cc:1778-1885 | after the head of a CONNECT or Upgrade request the call ends, with the message complete, upgrade set and the rest of the data left over |
| HttpPipelines.RequestIsRead | application/filehub/http_parser.cc:935-2060 | one request with its body, chunks and trailers, after any line ends, is read as itself from any parser that waits for a request |
| HttpPipelines.Pipelined | application/filehub/http_parser.cc:605-2098 | a stream of requests in whatever pieces: every byte is taken, the callbacks are those of the requests one after the other, and the parser waits for another if and only if the last one keeps the connection |
| HttpPipelines.NothingAfterTheLast | application/filehub/http_parser.cc:687-697 | a connection that is not kept takes nothing but line ends |
| HttpWrapper.Wrapper.ParseHttpContent | application/filehub/http_parser_wrapper.cc:16-51 | the fields after a parse are a function of the buffer alone |
| HttpWrapper.OnEventsSeen | application/filehub/http_parser_wrapper.cc:47-51 | the fields do not depend on how a URL or body is cut into callbacks |
| HttpWrapper.ReadAllIsStable | application/filehub/http_conn.cc:49-62 | IsReadAll never goes back to false as the buffer grows |
| HttpWrapper.CompletedIsFinal | application/filehub/http_parser_wrapper.cc:129-144 | once a request without keep-alive is complete, any longer buffer gives the same URL, body, length and flag |
| HttpCountedBody.HeadRun | application/filehub/http_parser.cc:1830-1885 | the header block of a request with a nonzero length leads to the counted body and delivers no body byte |
| HttpCountedBody.CountedBody | application/filehub/http_parser_wrapper.cc:129-144 | the body is exactly the announced bytes after the header block, complete if and only if all are there, and total_length_ is their end modulo 2^32 |
| HttpCountedBody.BodyComesFirst | application/filehub/http_parser_wrapper.cc:129-144 | whatever follows the announced bytes, also further requests on a connection that is kept alive, the request is complete and its body comes first |
| HttpChunked.FromIToHex | client/upload/httplib.h:2527-2535 | the loop gives the shortest hexadecimal text of the number |
| HttpChunked.ChunkWriter.WriteContentChunked | client/upload/httplib.h:4530-4632 | the writer's stream is the one the provider's calls ask for |
| HttpChunked.WriterOutput | client/upload/httplib.h:4538-4609 | however a provider groups its writes and its done, the stream is the chunks and the last chunk |
| HttpChunked.ChunkedRun | application/filehub/http_parser.cc:1935-2060 | a chunked message delivers its payloads and is complete with its last byte and not before |
| HttpChunked.ChunkedRoundTrip | client/upload/httplib.h:4538-4609 | client to server: the parser, fed the writer's stream in any pieces, delivers the concatenation of the payloads as body and then completes the message |
| HttpLengths.LengthIsRead | application/filehub/http_parser.cc:1665-1688 | a run over digits in the Content-Length value, or over the digits of a chunk size, ends with the number that the accumulator makes of them, or with HPE_INVALID_CONTENT_LENGTH |
| HttpLengths.LengthIsExact | application/filehub/http_parser.cc:1935-1995 | such a run reads the digits as their value if and only if that is below 2^64 - 1 |
| HttpLengths.DigitsExact | application/filehub/http_parser.cc:1670-1688 | the wrapping accumulator with its overflow test gives the value if and only if it is below 2^64 - 1 |
| HttpLengths.ALengthWraps | application/filehub/http_parser.cc:1673-1683 | the header line Content-Length: 20496382304121724020 is read, without an error, as 2049638230412172404 |
| HttpUrl.HttpParserParseUrl | application/filehub/http_parser.cc:2335-2439 | the splitter's loops compute ParseUrl |
| HttpUrl.ScanUrl | application/filehub/http_parser.cc:2346-2404 | the field scan over the shared automaton |
| HttpUrl.SplitHost | application/filehub/http_parser.cc:2253-2333 | the host is split into userinfo, host and port |
| HttpUrl.ParseUrl | application/filehub/http_parser.cc:2335-2439 | an accepted URL has its fields laid out in the buffer, and its port is the number its digits spell, below 2^16 |
| HttpUrl.FieldsAreDisjoint | application/filehub/http_parser.cc:2346-2439 | two fields marked set lie inside the buffer and share no byte |
| HttpUrl.AcceptedMayEnd | application/filehub/http_parser.cc:2335-2439 | an accepted URL leaves the automaton where a request target may end |
| HttpUrl.AcceptedUrlIsTarget | application/filehub/http_parser.cc:1139-1215 | an accepted URL is accepted as a request target, and on_url gets the same bytes |
| HttpUrlLabels.FieldsAreLabelled | application/filehub/http_parser.cc:2253-2439 | the fields of an accepted URL lie where its separators put them: a scheme of letters before ://, a user before @, a host behind :// or @ or in brackets, a port behind a colon, a path from its slash, a query behind ? and a fragment behind #, and none holds the separator that would have ended it |
| HttpUrlLabels.NothingForgotten | application/filehub/http_parser.cc:2335-2439 | every byte of an accepted URL lies in one of its fields or is a separator |
| Calendar.DateRoundTrip | muduo/base/Date.cc:21-43 | getYearMonthDay inverts getJulianDayNumber on every valid date from 1 March -4800 |
| Calendar.DayRoundTrip | muduo/base/Date.cc:21-43 | every day number from -32044 names a valid date and comes back from it |
| Calendar.NextDayIsSuccessor | muduo/base/Date.cc:21-28 | the next calendar day has the next number, leap years included |
| Calendar.JulianIsCount | muduo/base/Date.cc:21-28 | the day number counts the days of the preceding years and months |
| Calendar.NoOverflow | muduo/base/Date.cc:30-43 | no intermediate value leaves 32 bits up to the bound, and one day later the first does |
| Calendar.NumberDoesNotOverflow | muduo/base/Date.cc:21-28 | no intermediate value of getJulianDayNumber leaves 32 bits up to the same bound |
| Calendar.TimesInRange | muduo/base/TimeZone.cc:498-505 | the times whose day numbers keep within the bounds are those from MIN_TIME to MAX_TIME |
| Calendar.TimeRoundTrip | muduo/base/TimeZone.cc:285-305 | fromUtcTime(BreakTime(t)) = t, for negative t too |
| Calendar.CivilRoundTrip | muduo/base/TimeZone.cc:498-505 | BreakTime(fromUtcTime(d)) = d for every valid civil time |
| Calendar.SecondsAreCounted | muduo/base/TimeZone.cc:498-505 | the start of 1970 is second 0, and the next second of the clock has the next number |
| TimeZones.Data.AddTransition | muduo/base/TimeZone.cc:54-58 | a transition carries its local time, and an index out of range changes nothing |
| TimeZones.Data.FindLocalTimeOfUtc | muduo/base/TimeZone.cc:318-356 | the search by instant |
| TimeZones.Data.FindLocalTimeOfLocal | muduo/base/TimeZone.cc:358-431 | the search by civil time, over a prior and a next transition |
| TimeZones.PeriodOffset | muduo/base/TimeZone.cc:318-356 | in the period of a transition its own local time is in force, before the first one the first of the table |
| TimeZones.UniqueRoundTrip | muduo/base/TimeZone.cc:318-431 | an instant whose local time is unique comes back, whichever side of a transition is asked for |
| TimeZones.RepeatedInterior | muduo/base/TimeZone.cc:358-431 | at an interior transition a repeated local time gives the earlier instant, or with postTransition the later, and there is no third |
| TimeZones.RepeatedAtTheEnds | muduo/base/TimeZone.cc:358-431 | at the first and last transition both sides give the later instant |
| TimeZones.EarlierIffInterior | muduo/base/TimeZone.cc:358-431 | the earlier instant of a repeated local time is found if and only if the transition is interior |
| TimeZones.SkippedLocalTime | muduo/base/TimeZone.cc:358-431 | a skipped local time is nobody's and is read with the offset before or after the jump |
| TimeZones.SkippedAtTheFirst | muduo/base/TimeZone.cc:358-431 | a local time skipped at the first transition is read with the offset before it, either way |
| TimeZones.LocalTimeRoundTrip | muduo/base/TimeZone.cc:461-491 | fromLocalTime(toLocalTime(t)) = t for every t whose local time is unique |
| TimeZones.CivilTimeIsShown | muduo/base/TimeZone.cc:461-491 | a civil time that some instant shows is shown by the instant it is mapped to |
| ReferenceCounts.MutualExclusion | application/filehub/api/api_common.h:148-166 | in every run at most one handler is between taking and releasing the lock |
| ReferenceCounts.AdvanceKeepsTheLock | application/filehub/api/api_dealfile.cc:353-391 | a statement changes the records only under the lock, and the count a delete has read is still the record's |
| ReferenceCounts.Conservation | application/filehub/api/api_dealfile.cc:308-391 | in every interleaving and with every outcome, count = rows + references owed in flight + what has leaked |
| ReferenceSafety.CoveredExactly | application/filehub/api/api_upload.cc:325-374 | the count covers rows and references in flight if and only if the leaks are not negative in sum |
| ReferenceSafety.ExactAtRest | application/filehub/api/api_md5.cc:94-114 | with no handler in flight, count = rows if and only if nothing leaked |
| ReferenceSafety.CountCoversReferences | application/filehub/api/api_deal_sharefile.cc:138-192 | in every orderly run count >= rows + saves and uploads between count and row + deletes between row and count |
| ReferenceSafety.RemovedOnlyWhenUnreferenced | application/filehub/api/api_dealfile.cc:374-383 | a record is removed only when no row has its MD5 and no handler in flight refers to it |
| ReferenceSafety.EveryRowHasARecord | application/filehub/api/api_deal_sharefile.cc:138-192 | in every orderly run each row has a record |
| ReferenceSafety.EveryRowHasItsFile | application/filehub/api/api_upload.cc:568-580 | in every orderly run in which new rows can be written, each row leads to a stored file |
| ReferenceSafety.StorageIsExactAtRest | application/filehub/api/api_dealfile.cc:393-401 | if the storage also tells URLs and removes files when asked, it holds at rest exactly the files of the records |
| StorageLedger.FileLedger | application/filehub/api/api_upload.cc:568-580 | in every run a record's file is stored if and only if it is not among those whose upload wrote the record, failed to write its row and then removed the file |
| StorageLedger.RowsAndRecords | application/filehub/api/api_upload.cc:536-584 | in every run each row leads to a stored file if and only if each row has a record and no row's record had its file so removed |
| StorageLedger.RowsLeadToFilesExactly | application/filehub/api/api_upload.cc:536-584 | in every orderly run each row leads to a stored file if and only if no row's record had its file so removed |
| FileServer.TwoDeletesLoseTheRecord | application/filehub/api/api_dealfile.cc:308-391 | two deletes that both find one row remove the record under another user's row |
| FileServer.FailedInsertLosesTheRecord | application/filehub/api/api_upload.cc:325-346 | an insertion that fails on a new MD5 lets the upload go on and leave a row without a record |
| FileServer.FailedRowEnds | application/filehub/api/api_upload.cc:568-580 | an upload whose row cannot be written for a new record ends with the record there and its file removed |
| ServerRuns.TwoDeletesFromTheStart | application/filehub/api/api_dealfile.cc:308-391 | a run from the empty server: an upload, another user's save and two overlapping deletes of the first row leave the other user's row without a record |
| ServerRuns.LostFileFromTheStart | application/filehub/api/api_upload.cc:568-580 | an orderly run from the empty server: an upload that fails on its row and another user's save leave a row whose record has no stored file |
| FileServer.DeleteUndoesSave | application/filehub/api/api_deal_sharefile.cc:138-192 | a save and then a delete restore tables, storage and lock |
| FileServer.DeleteUndoesUpload | application/filehub/api/api_dealfile.cc:308-401 | the upload of a new file and then a delete restore tables, storage and lock |
| FileServer.FileInfoLock.TryLockFor | application/filehub/api/api_common.h:148-159 | the lock is taken exactly when it is free, or is freed in time, and nobody has stopped the waiting |
| FileServer.FileInfoLock.Unlock | application/filehub/api/api_common.h:162-166 | frees the lock |
| FileServer.FileInfoLock.StopWaiting | application/filehub/api/api_common.h:169-173 | makes every wait fail |
| FileServer.Server.HandleDeleteFile | application/filehub/api/api_dealfile.cc:308-420 | the whole handler, also when another handler holds the lock: every exit leaves the tables, storage, lock and return code that its steps say |
| FileServer.Server.HandleSaveFile | application/filehub/api/api_deal_sharefile.cc:138-198 | the same for saving a shared file |
| FileServer.Server.HandleDealMd5 | application/filehub/api/api_md5.cc:76-114 | the same for the instant-upload query, which ends in failure after raising the count |
| FileServer.Server.StoreFileinfo | application/filehub/api/api_upload.cc:325-383 | the same for the part of an upload that runs under the lock |
| FileServer.Server.ApiUpload | application/filehub/api/api_upload.cc:536-584 | the same for storing, recording and cleaning up an upload |
| TimerQueues.EveryRun | muduo/net/TimerQueue.cc:132-259 | in every run the two indexes are images of each other and of one size, each live timer has an owner, and a queue at rest that is not empty is armed no later than its earliest expiry or 100 microseconds from now |
| TimerQueues.Next | muduo/net/TimerQueue.cc:132-259 | every step keeps the invariant; nothing freed is read, freed or entered again |
| TimerQueues.ExpireTakesTheDue | muduo/net/TimerQueue.cc:183-202 | the batch holds exactly the waiting timers that are due, each once |
| TimerQueues.CalledWhenDue | muduo/net/TimerQueue.cc:163-181 | a callback runs only when its timer is due |
| TimerQueues.CancelledNeverRunsLater | muduo/net/TimerQueue.cc:143-161 | a timer cancelled after its adding was processed never runs once the running batch is over |
| TimerQueues.OneShotRunsOnce | muduo/net/TimerQueue.cc:204-233 | a timer that does not repeat runs at most once |
| TimerQueues.BatchIsSettled | muduo/net/TimerQueue.cc:204-233 | after a batch each of its timers is freed or, if it repeats and was not cancelled, waits for one period from the time the batch was taken; all other timers are as they were |
| TimerQueues.CalledNotBeforeItsTime | muduo/net/TimerQueue.cc:163-233 | in every run a timer is called no earlier than the time it was added for |
| TimerQueues.AlarmIsExact | muduo/net/TimerQueue.cc:132-233 | whenever the alarm is set, it is set for the first timer, or for 100 microseconds from now if that is later |
| TimerQueues.NothingElseIsFreed | muduo/net/TimerQueue.cc:143-233 | a timer is freed if and only if it is cancelled while it waits, or its batch is over and it does not restart |
| TimerQueueClass.TimerQueue.Insert | muduo/net/TimerQueue.cc:235-260 | both indexes gain the timer, and the result says whether it is now the earliest |
| TimerQueueClass.TimerQueue.AddTimerInLoop | muduo/net/TimerQueue.cc:132-141 | the adding step in place |
| TimerQueueClass.TimerQueue.CancelInLoop | muduo/net/TimerQueue.cc:143-161 | the cancelling step in place |
| TimerQueueClass.TimerQueue.GetExpired | muduo/net/TimerQueue.cc:183-202 | the due entries leave both indexes |
| TimerQueueClass.TimerQueue.Reset | muduo/net/TimerQueue.cc:204-233 | the batch is entered again or freed, and the alarm set |
| TimerQueueClass.TimerQueue.HandleRead | muduo/net/TimerQueue.cc:163-181 | a whole batch, with callbacks that add and cancel timers, is a run of the steps |
| AsyncLogs.NextKeeps | muduo/base/AsyncLogging.cc:69-133 | the back end always finds the buffers it takes back, even after it dropped some, and no buffer overflows |
| AsyncLogs.Conservation | muduo/base/AsyncLogging.cc:34-133 | in every interleaving, what was written or dropped, what is being written and what is buffered are all lines in lock order, and the file holds the written pieces and the notices |
| AsyncLogs.AllLines | muduo/base/AsyncLogging.cc:34-133 | while no cycle collects more than 25 buffers, file ++ being written ++ buffers_ ++ currentBuffer_ are all lines |
| AsyncLogs.BehindIsNoticed | muduo/base/AsyncLogging.cc:93-102 | the back end keeps up if and only if the file holds no notice |
| AsyncLogs.RotatesExactly | muduo/base/AsyncLogging.cc:34-56 | a line moves the current buffer to the others if and only if it does not fit, and the buffer it then goes to holds nothing else |
| AsyncLogs.ModerateRateLosesNothing | muduo/base/AsyncLogging.cc:34-133 | while fewer than 13 * 4,000,000 bytes are appended between two collections, however cut into lines, the back end keeps up and file and buffers make up all lines |
| AsyncLogs.ThirteenBuffersAreTooMany | muduo/base/AsyncLogging.cc:93-102 | 26 lines of half a buffer, 13 * 4,000,000 bytes, are collected as 26 buffers, which is one too many |
| AsyncLogClass.AsyncLogging.Append | muduo/base/AsyncLogging.cc:34-56 | the appending step in place |
| AsyncLogClass.AsyncLogging.Collect | muduo/base/AsyncLogging.cc:77-89 | the swap under the lock |
| AsyncLogClass.AsyncLogging.DropIfBehind | muduo/base/AsyncLogging.cc:91-102 | the drop down to two buffers |
| AsyncLogClass.AsyncLogging.TakeBack | muduo/base/AsyncLogging.cc:110-130 | two buffers are taken back and reset |
| AsyncLogClass.AsyncLogging.Round | muduo/base/AsyncLogging.cc:69-132 | one round of the back end, with lines appended by others in between, is a run of the steps |
| EventLoops.AwakeExactly | muduo/net/EventLoop.cc:103-171 | in every run, when the loop is about to poll with a functor queued: the eventfd is readable or a thread is on its way to write to it if and only if a wakeup promised by a push from another thread, a push while functors are called, or a quit is not consumed; each queued functor has such a wakeup of its own unless the loop's thread pushed it outside the loop |
| EventLoops.SleepsExactly | muduo/net/EventLoop.cc:103-171 | it sleeps on queued functors if and only if the loop's own thread pushed all of them outside the loop and every promised wakeup has been consumed |
| EventLoops.NoLostWakeup | muduo/net/EventLoop.cc:103-171 | so no wakeup is lost when the loop's thread pushes nothing outside its loop, nor when quit is requested while it loops |
| EventLoops.PromisedAndConsumed | muduo/net/EventLoop.cc:136-171 | a wakeup is promised by a push or quit of another thread and by a push while functors are called, and consumed by the read behind its write, and by nothing else |
| EventLoops.LeavesExactly | muduo/net/EventLoop.cc:103-146 | in every run the loop leaves, when it looks, if and only if it was told to quit since it was last started |
| EventLoops.ExactlyOnceInOrder | muduo/net/EventLoop.cc:254-269 | every functor runs at most once, in the order of queueing |
| EventLoops.RoundRunsAll | muduo/net/EventLoop.cc:254-269 | a round runs all that was queued when it swapped, whatever is queued meanwhile |
| EventLoops.QueuedBeforeTheLoop | muduo/net/EventLoop.cc:160-171 | a run in which a functor queued by the loop's own thread before it loops wakes nobody |
| EventLoops.QuitBeforeTheLoop | muduo/net/EventLoop.cc:103-137 | a run in which a quit before the loop is forgotten, because loop clears the flag |
| EventLoopClass.EventLoop.QueueInLoop | muduo/net/EventLoop.cc:160-171 | queueing from the loop's own thread, in its loop or outside, is a run of the steps |
| EventLoopClass.EventLoop.QueueFromOutside | muduo/net/EventLoop.cc:160-171 | queueing from another thread pushes and then writes to the eventfd |
| EventLoopClass.EventLoop.DoPendingFunctors | muduo/net/EventLoop.cc:254-269 | with functors that queue more functors, exactly those queued before the swap have run |
| TcpConnections.OutputFifo | muduo/net/TcpConnection.cc:139-192 | socket bytes ++ outputBuffer_ are the messages sent while connected, in order, if and only if no message that is not empty met EPIPE or ECONNRESET |
| TcpConnections.WritingIffOutput | muduo/net/TcpConnection.cc:139-192 | isWriting holds if and only if outputBuffer_ is not empty, in every state but kDisconnected |
| TcpConnections.DrainedShutdown | muduo/net/TcpConnection.cc:194-213 | shutdownWrite is issued only when every accepted byte is on the wire, and nothing is written after it |
| TcpConnections.ShutdownIsNotForgotten | muduo/net/TcpConnection.cc:368-406 | a connection told to end, not forced, with nothing left to write, has been shut down |
| TcpConnections.CallbacksAtTheirMoments | muduo/net/TcpConnection.cc:139-192 | high-water is reported if and only if the buffer crosses the mark upwards; write-complete at a send if and only if the connection is up, nothing is buffered and the socket takes the whole message, and at a write event if and only if it empties the buffer |
| TcpConnections.ClosedIsSilent | muduo/net/TcpConnection.cc:408-421 | once the peer has closed, or the connection was destroyed or closed by force, every state of every continuation is down and not writing, and nothing more is accepted, written, shut down or reported |
| TcpConnections.StateOfARun | muduo/net/TcpConnection.cc:194-421 | in every run an established connection is down if and only if something took it down, and otherwise ending if and only if something told it to end |
| TcpConnections.WrittenOut | muduo/net/TcpConnection.cc:368-406 | write events that take all that is buffered put exactly that on the wire, report it once, and shut the socket if the connection was told to end |
| TcpConnectionClass.TcpConnection.Send | muduo/net/TcpConnection.cc:92-110 | sends only while connected |
| TcpConnectionClass.TcpConnection.SendInLoop | muduo/net/TcpConnection.cc:139-192 | direct write, then the rest to the output buffer |
| TcpConnectionClass.TcpConnection.Shutdown | muduo/net/TcpConnection.cc:194-213 | the state changes, and the socket is shut unless writing |
| TcpConnectionClass.TcpConnection.HandleWrite | muduo/net/TcpConnection.cc:368-406 | a write event in place, with the shutdown that was waiting for it |
| TcpConnectionClass.TcpConnection.HandleClose | muduo/net/TcpConnection.cc:408-421 | the connection is down and waits for the socket no longer |
| Md5.FoldOn | muduo/base/md5.cc:149-183 | folding a message further from the state and the tail is folding the whole |
| Md5.CountAdded | muduo/base/md5.cc:158-162 | the two wrapping words hold 8n modulo 2^64 after every addition |
| Md5.IndexOfCount | muduo/base/md5.cc:155-156 | the low word gives the number of buffered bytes |
| Md5.WordRoundTrip | muduo/base/md5.cc:306-325 | decode inverts encode |
| Md5.ByteRoundTrip | muduo/base/md5.cc:306-325 | encode inverts decode |
| Md5.EncodedBits | muduo/base/md5.cc:306-314 | bit j of byte k of an encoded word is bit 8k + j of the word |
| Md5.InitBytes | muduo/base/md5.cc:104-114 | the initial state, encoded, is 01 23 45 67 89 ab cd ef fe dc ba 98 76 54 32 10 (RFC 1321, section 3.3) |
| Md5.PaddedIs | muduo/base/md5.cc:199-208 | what final appends makes the padded form of the message: a one bit, as few zero bits as reach 448 modulo 512, and the length in bits modulo 2^64 |
| Md5.OnePadded | muduo/base/md5.cc:199-208 | a message has one padded form |
| Md5.DigestWords | muduo/base/md5.cc:188-216 | for every message the four words of its digest are those of the initial state folded over the padded form, in order, each with its low-order byte first |
| Md5Class.MD5.Reset | muduo/base/md5.cc:104-114 | the object stands for the empty message |
| Md5Class.MD5.Update | muduo/base/md5.cc:149-183 | the object stands for the message with the input appended: state, tail and count, and the buffer byte for byte |
| Md5Class.MD5.Final | muduo/base/md5.cc:188-216 | the digest is the padded one-shot digest of the message, and the object stands for the message or for the one whose tail the padding has overwritten |
| Md5Class.MD5.DigestNow | muduo/base/md5.cc:94-101 | digest computes anew each time, since update inside final clears the flag |
| Md5Class.Hash | muduo/base/md5.cc:94-183 | the digest does not depend on the pieces in which a message is fed |
| Md5Class.ResumedExactly | muduo/base/md5.cc:188-216 | taking the digest leaves the message if and only if fewer than 56 bytes wait or they are what the padding writes |
| Md5Class.EarlyDigestsDoNotShow | muduo/base/md5.cc:94-101 | digests taken while fewer than 56 bytes wait do not show in any later update or digest |
| Md5Class.Serve | muduo/base/md5.cc:94-216 | any sequence of updates and digests returns the digests of the messages so far |
| ByteBuffer.Buffer.constructor | muduo/net/Buffer.h:48-56 | an empty buffer with room for 8 bytes in front |
| ByteBuffer.Buffer.Retrieve | muduo/net/Buffer.h:113-124 | the first bytes are taken off |
| ByteBuffer.Buffer.RetrieveAsString | muduo/net/Buffer.h:164-170 | the bytes taken off and the bytes left are the old contents |
| ByteBuffer.Buffer.MakeSpace | muduo/net/Buffer.h:390-409 | contents are kept, the array grows if and only if moving to the front does not make room, and the compaction's assertion holds |
| ByteBuffer.Buffer.Append | muduo/net/Buffer.h:182-187 | contents gain the data |
| ByteBuffer.Buffer.Unwrite | muduo/net/Buffer.h:215-219 | the last bytes are taken back |
| ByteBuffer.Buffer.Prepend | muduo/net/Buffer.h:354-360 | the data goes in front |
| ByteBuffer.Buffer.Shrink | muduo/net/Buffer.h:362-369 | contents are kept in a fresh array |
| ByteBuffer.Buffer.ReadFd | muduo/net/Buffer.cc:25-57 | exactly the bytes read are appended, through one or two segments |
| ByteBuffer.Buffer.AppendInt | muduo/net/Buffer.h:224-248 | contents gain the integer in network order |
| ByteBuffer.Buffer.PrependInt | muduo/net/Buffer.h:328-352 | the integer goes in front |
| ByteBuffer.Buffer.ReadInt | muduo/net/Buffer.h:254-284 | an integer that was appended or prepended is read back and taken off |
| ByteBuffer.IntRoundTrip | muduo/net/Buffer.h:224-325 | decoding inverts encoding at every width and sign |
| ByteBuffer.FromBigEndianRoundTrip | muduo/net/Buffer.h:290-325 | every byte string is the encoding of its value |
| Base64.RoundTrip | client/upload/httplib.h:2571-2597 | decoding inverts the three-byte groups |
| Base64.KnownAnswers | client/upload/httplib.h:2571-2597 | texts of RFC 4648, section 10, and the two symbols behind the letters and digits |
| Base64.Base64Encode | client/upload/httplib.h:2571-2597 | the encoder with its 32-bit accumulator gives the groups, for input of any length |
| Base64.ShiftedBits | client/upload/httplib.h:2582-2589 | only the last byte in the accumulator matters, so losing the high bits does no harm |
| MultipartTheorem.SerializeIsTail | client/upload/httplib.h:5078-5121 | the serialized form is an opening delimiter and entries that each end in a delimiter |
| MultipartExact.PartsExactly | client/upload/httplib.h:4807-4942 | a serialized form in any pieces is accepted with one part per item and exactly its content if and only if the first opening delimiter that lies inside one piece is the one at the begin of the text or one that ends just before the empty line of the first header |
| MultipartExact.WholeOpeningNeeded | client/upload/httplib.h:4807-4942 | unless the first content type ends like a delimiter, that is if and only if the first piece that is not empty holds the whole opening delimiter |
| MultipartExact.AnyPieces | client/upload/httplib.h:4807-4942 | a first nonempty piece that holds the whole opening delimiter is enough for every form |
| MultipartExact.PartsAreSpans | client/upload/httplib.h:4827-4920 | the parts of a parse that succeeds are stretches of the text, each behind an empty line and closed by a delimiter |
| MultipartLayout.NeverCatchesUp | client/upload/httplib.h:4898-4920 | stretches of a serialized form that begin behind the first content are never its contents, whatever delimiters contents and headers form together |
| MultipartExact.PieceWithout | client/upload/httplib.h:4814-4821 | a piece that holds no whole opening delimiter is lost, and the parser stays fresh |
| MultipartExact.FirstPartsMissing | client/upload/httplib.h:4814-4821 | when no piece of the first items holds a whole opening delimiter, the form is accepted without them |
| MultipartExact.OneOfTwoParts | client/upload/httplib.h:4814-4821 | a form of two items with a first piece of one character is accepted with only the second part |
| MultipartExact.FoundInTheHeader | client/upload/httplib.h:4814-4821 | a form whose content type ends like a delimiter is read whole though its first piece is one character |
| MultipartExact.FormExactly | client/upload/httplib.h:4807-4942 | a serialized form in any pieces is read with each content and with the information of each header if and only if the first piece that is not empty holds the whole opening delimiter |
| MultipartExact.EverythingComesThrough | client/upload/httplib.h:4827-4942 | then name, file name and content type of every item are those of the form if and only if no name holds a semicolon, equals sign or line end and no type has a blank at an end |
| MultipartNames.InfoIsRead | client/upload/httplib.h:4845-4895 | the header lines of an item give back its name, file name and content type under that condition, and only then; without a file name none is read |
| MultipartTheorem.EmptyFormIsNotValid | client/upload/httplib.h:4814-4821 | a form without items is not accepted |
| MultipartClass.MultipartFormDataParser.BufAppend | client/upload/httplib.h:5015-5032 | unread text moves to the front and the new text follows it |
| MultipartClass.MultipartFormDataParser.BufFind | client/upload/httplib.h:4992-5013 | the first occurrence, or the length of the text |
| MultipartClass.MultipartFormDataParser.Parse | client/upload/httplib.h:4807-4942 | the parser object computes Feed |
| MultipartClass.TrimCopy | client/upload/httplib.h:2770-2775 | the text without the blanks at its ends |
| MultipartClass.SplitAll | client/upload/httplib.h:2803-2832 | the pieces between the separators, trimmed, without the empty ones |
| MultipartClass.ParseDispositionParams | client/upload/httplib.h:4720-4742 | the parameters of a Content-Disposition line, the first of each key |
| MultipartClass.ReadLine | client/upload/httplib.h:4845-4895 | what a header line of a part tells about it |

## Left out

- HttpParser.Execute: responses, callbacks that fail, pausing and F_SKIPBODY are not modelled; the server builds request parsers whose callbacks return 0.
- HttpSplitTheorem.SplitInvariance: bytes after an upgrade are not parsed, so runs that leave with upgrade set are outside it.
- HttpWrapper.Wrapper.ParseHttpContent: the header captures (Referer, Host and others) compare bytes past the end of a fragment and are not modelled.
- HttpUrl.ParseUrl: the port is read up to the end of its digits; strtoul in the source may read on past the buffer.
- HttpUrl.AcceptedUrlIsTarget: the request line must fit in the header limit, which the splitter does not know.
- HttpHeads.HeadIsRead: header lines end in CR LF and are not folded, there is no HTTP/0.9, and a version has one digit on each side; for these HttpParser.Execute, HttpSplitTheorem.SplitInvariance and HttpSplitErrors.CutsAgreeExactly hold, and nothing says which head they read.
- HttpPipelines.RequestIsRead: chunk extensions are not among the requests described.
- MultipartNames.InfoIsRead: the extended notation filename* of RFC 5987 is not modelled; the writer does not use it.
- HttpMethods.MethodIsSpelled: nothing is said about which misspelled word the M-SEARCH entry accepts.
- HttpChunked.ChunkWriter.WriteContentChunked: compression, trailers, and a stream that fails are not modelled.
- TimeZones.UniqueRoundTrip: tables are well separated, that is, each transition comes later than the sum of the offset changes next to it; reading TZif files is not modelled.
- Calendar.TimeRoundTrip: civil time starts at the first counted date; day numbers past the 32-bit bound are not modelled.
- ReferenceCounts.Conservation: the SQL text, collation, connections and lost replies are not modelled; a statement either takes effect or fails. Sharing, ranking and the Redis sets are left out.
- ReferenceSafety.EveryRowHasItsFile: gives conditions that suffice; StorageLedger.RowsAndRecords has the exact one.
- FileServer.Server.HandleDeleteFile: the share flag, the ranking cache and share_file_list are outside the model; a failure there is a failed look-up.
- FileServer.FileInfoLock.TryLockFor: how long the wait lasts is an outcome, and Reset is left out.
- FileServer.Server.ApiUpload: the parsing of the form and the temporary file are left out.
- TimerQueues.EveryRun: the wall clock and the timer descriptor share one clock that does not go back; double intervals are a flag and a number of microseconds.
- AsyncLogs.Conservation: a line of 4,000,000 bytes or more fits in no buffer and is not counted; lines that are still buffered when the back end stops stay unwritten.
- EventLoops.NoLostWakeup: leaves out pushes by the loop's own thread outside its loop; SleepsExactly covers them.
- TcpConnections.OutputFifo: sends and shutdowns from other threads, and the destruction of a server while a connection is ending, are outside the loop-thread model.
- Md5Class.MD5.Update: an update is at most 2^32 - 64 bytes, because the source counts in 32 bits; the 64 rounds are a parameter.
- ByteBuffer.Buffer.ReadFd: the errno that a failed read saves is not modelled; searching for line ends is left out.
- MultipartExact.PartsExactly: whether a header line is well formed (parse_header) is a parameter; callbacks accept everything; no content contains the delimiter, and header lines hold no carriage return and keep below the length limit.
- Base64.Base64Encode: the shift of a negative accumulator is taken as a shift of its 32-bit pattern.
- epoll, sockets, pthreads, Redis, MySQL and FastDFS clients, JSON handling, httplib's TLS, compression and request overloads: environment or thin wrappers.
