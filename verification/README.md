# News bulletin board: a verified model

The server keeps one integer, the news, behind a fair read-write lock. Reader and
writer clients reach it over plain sockets or over RMI. The server numbers requests as
they arrive (`rSeq`) and as they are served (`sSeq`), counts the readers present
(`rNum`), logs one record per request and publishes the log when it believes it is done.
This project models that system and proves what the published log says about the run.

**The protocol.** `Protocol.dfy` is a transition system. A state holds the fields of the
shared object, the lock, the log and one thread per request made so far; a step is one
line of `readValue` or `writeValue`, executed by any thread that can move. The lock is
its documented contract in fair mode: a FIFO of waiting threads, shared readers, one
writer. The append to the log is a step of its own, after the unlock. `Init(n)` allows
any `n` requests of any kind, in any interleaving. Two history variables, the order of arrival at the lock and the list of drawn records,
are written by the steps and read by none of them.

**The proofs.** `Invariants.dfy` holds the inductive invariant, one conjunct per concern
over just the fields it speaks of, and one lemma per conjunct and kind of line.
`Theorems.dfy` and `Progress.dfy` derive the statements about whole runs, and construct the
runs that show where a guarantee ends (`RunTo`: threads that stand apart from the lock can
be held back for as long as a scheduler likes). `Sharing.dfy` proves the other side of the
lock: what must be possible, any number of readers inside together first of all.

**The classes.** `SharedServerObject.dfy`, `Log.dfy`, `ServerWorker.dfy`, `RmiServer.dfy`,
`Worker.dfy` and `SystemConfiguration.dfy` follow the source's classes: fields, methods,
loops. `Abs()` maps the shared object to a protocol state, and each line method is proved
to be a step of the protocol. Whole calls and whole server and client loops are these
lines with any number of events of the other threads between any two of them (`Interfere`,
`OneEvent`, `MoveOn`, chosen freely), so their contracts hold for every interleaving, and
their loops terminate because every event uses up some of the finite work of `limit`
requests.

**The whole system.** `Deployment.dfy` puts the parts together: the clients and the server
of an accepted configuration, their workload, and the file that either server publishes.

**The texts.** `Text.dfy` and `Codec.dfy` model decimal ints, `split`, `trim`, `readLine`,
the printed records and the request lines. `TextLaws.dfy` and `CodecLaws.dfy` state what
each of them does with every text or call, well-formed or not, without recourse to the
recursive definitions. `Log.dfy` holds the published tables and describes each file line by
line and column by column; `Publication.dfy` proves what they reveal.

Four findings are stated as theorems:

- The log is not always in the order of `sSeq`, although `sSeq` orders the service. Two
  reads, or two writes, can be appended in either order (`TwoReadsReversed` ends with the
  reads numbered 2, 1 in the log). Every run of a given list of requests leaves the read
  log in order exactly if at most one of them is a read, and the write log exactly if at
  most one is a write (`LogSortedExactly`).
- Reader and writer ids are not always disjoint. Writer ids start at the number of writers
  plus one, so in an accepted configuration they avoid the reader ids exactly when there
  are no writers or as many writers as readers (`IdsDistinct`; `IdsCanClash` is an accepted
  file with a clash). Exactly then no two clients write their logs to the same file name
  (`FleetDistinct`).
- The array of writer names has one entry per reader, so a configuration with more writers
  than readers is rejected (`Acceptable`, decided by the constructor).
- The RMI server counts finished calls, not recorded requests. For any list of calls, the
  permit guarantees that every call that reaches the object is recorded exactly if at most
  N of the calls end without an exception, or none reaches the object; otherwise some run
  makes all calls, releases at least N times and publishes while one of them has not begun
  (`GateExact`, `EarlyPublication`). The log is never published if fewer than N calls end
  without an exception (`RMIServerWorker.Run`).

## Model

| member | source | states |
|---|---|---|
| Theorems.Linearizable | src/server/SharedServerObject.java:37-69 | whenever all requests made that reach the object are logged, any arrangement of the logged records sorted by sSeq is numbered 1, 2, ... and is a register history from -1: each read returns what the last write before it wrote |
| Theorems.LegalIsRegister | src/server/SharedServerObject.java:46-63 | the step-by-step legality kept by the invariant means the register law in terms of the last write |
| Theorems.DrawnOnce | src/server/SharedServerObject.java:47-51 | in every reachable state each drawn sSeq belongs to exactly one thread, and its record is in the log once if that thread has appended it and not at all otherwise |
| Theorems.NothingElse | src/server/SharedServerObject.java:47-67 | in every reachable state the log holds only drawn records, each once, and sSeq is one above the number of draws |
| Theorems.SettledLog | src/server/SharedServerObject.java:51-67 | when every request made that reaches the object is logged, the log as a bag is the history |
| Theorems.RNumBlocks | src/server/SharedServerObject.java:38-50 | for each maximal block of consecutive reads the set of rNums is exactly 1..m, m at most the block's length, and all its reads return one value |
| Theorems.WritePosition | src/server/SharedServerObject.java:26 | a write's sSeq is its arrival position on the fair lock: all that queued before have drawn smaller numbers, all that queued after draw larger ones |
| Theorems.OrderAcrossWrites | src/server/SharedServerObject.java:26 | arrival order and sSeq order agree whenever a write queued in between, so only reads between the same two writes can be reordered |
| Theorems.MutualExclusion | src/server/SharedServerObject.java:38-66 | in every reachable state a writer excludes all others, nRead is the number of readers between increment and decrement, these hold the lock, nRead is 0 under a writer, and a sampled value is still val when the number is drawn |
| Invariants.InitInv | src/server/SharedServerObject.java:22-28 | the initial state satisfies the invariant |
| Invariants.StepInv | src/server/SharedServerObject.java:37-69 | each line of each thread keeps the invariant |
| Invariants.ArriveInv | src/server/rmi/ClientController.java:26 | a new request keeps the invariant |
| Invariants.RunInv | src/server/SharedServerObject.java:37-69 | every state of every run satisfies the invariant |
| Invariants.WriterAlone | src/server/SharedServerObject.java:56-66 | while a writer holds the lock nobody else does, nRead is 0 and no reader owes a number |
| Progress.DeadlockFree | src/server/SharedServerObject.java:37-69 | a reachable state has no next event exactly when all requests have been made and have ended |
| Progress.QueueMoves | src/server/SharedServerObject.java:38 | if a thread waits for the lock, the first in the queue is admitted or a holder can move |
| Progress.EventCosts | src/server/SharedServerObject.java:37-69 | every event lowers the remaining work by one |
| Progress.RunLength | src/server/SharedServerObject.java:37-69 | the length of a run is fixed by where it ends and is at most ten events a request |
| Progress.MaximalRun | src/server/SharedServerObject.java:37-69 | every run of N requests that cannot be continued has one event per call and per line (nine a read, seven a write), ends with the lock free and nRead 0, and if all N are valid with sSeq = N + 1 and N logged records |
| Progress.SettledState | src/server/SharedServerObject.java:37-69 | when every request made that reaches the object is logged, the lock is free, nRead is 0, sSeq is one above the number of these requests, there are as many records, and val is the last write |
| Progress.RunTo | src/server/SharedServerObject.java:37-69 | threads that have not asked for the lock or have given it back can be held still for any time: all other threads can be run to their append or to their end |
| Progress.Drain | src/server/SharedServerObject.java:37-69 | from every invariant state the requests made can be run to their end without new ones |
| Progress.CallAll | src/server/rmi/ClientController.java:25-26 | all requests can be made before any of them does anything |
| Sharing.ReadersShare | src/server/SharedServerObject.java:38-50 | for every list of n reads some run reaches a moment at which all n hold the lock together and nRead is n, and goes on to a completed run whose history has the rNums 1..n |
| Sharing.ReaderJoins | src/server/SharedServerObject.java:38 | from every reachable state without a writer a reader at the head of the queue can be admitted, however many readers hold, and nothing else changes |
| Sharing.WriterEnters | src/server/SharedServerObject.java:56 | from every reachable state in which nobody holds a writer at the head of the queue can be admitted |
| Sharing.GoesOn | src/server/SharedServerObject.java:37-69 | the lock is the only thing a call waits for: at any other line its thread can go on while all others stand still |
| Progress.RealTimeOrder | src/server/rmi/ClientController.java:25-37 | if a request has drawn its number before another is made, both its rSeq and its sSeq are smaller |
| Progress.DrawnLater | src/server/SharedServerObject.java:47-64 | a request that has not drawn yet gets a number above all numbers drawn so far, and its record is at that place |
| Progress.CountersFit | src/server/SharedServerObject.java:14-15 | if all arguments are 32-bit ints and N + 1 is one, no counter wraps and all fields of all records are 32-bit ints |
| LogOrder.LogSortedExactly | src/server/SharedServerObject.java:47-51 | for every list of requests: all its completed runs leave the log of a kind in the order of sSeq if and only if at most one of the requests is of that kind |
| LogOrder.OutOfOrder | src/server/SharedServerObject.java:63-67 | for any two requests of one kind in any list there is a completed run in which one draws its number first and is logged right after the other |
| LogOrder.TwoReadsReversed | src/server/SharedServerObject.java:47-51 | a completed run of two reads whose log has the numbers 2, 1 |
| SharedObject.SharedServerObject.constructor | src/server/SharedServerObject.java:22-28 | the object starts in the initial state |
| SharedObject.SharedServerObject.Begin | src/server/rmi/ClientController.java:26 | a call with the next rSeq becomes a thread |
| SharedObject.SharedServerObject.EnterQueue | src/server/SharedServerObject.java:38 | calling lock() joins the queue's end |
| SharedObject.SharedServerObject.Acquire | src/server/SharedServerObject.java:38 | lock() returns to the first in the queue, in its mode: a reader joins the readers that hold (see Sharing.ReaderJoins), a writer holds alone |
| SharedObject.SharedServerObject.CountReader | src/server/SharedServerObject.java:39 | rNum is the incremented nRead |
| SharedObject.SharedServerObject.SampleValue | src/server/SharedServerObject.java:46 | value is val |
| SharedObject.SharedServerObject.AssignValue | src/server/SharedServerObject.java:63 | val becomes the written value |
| SharedObject.SharedServerObject.DrawNumber | src/server/SharedServerObject.java:47-48 | sSeq is drawn and incremented, the record is built and joins the history |
| SharedObject.SharedServerObject.UncountReader | src/server/SharedServerObject.java:49 | nRead is decremented |
| SharedObject.SharedServerObject.UnlockRead | src/server/SharedServerObject.java:50 | the reader leaves the lock |
| SharedObject.SharedServerObject.UnlockWrite | src/server/SharedServerObject.java:66 | the writer leaves the lock |
| SharedObject.SharedServerObject.AppendRecord | src/server/SharedServerObject.java:51 | the record is appended after the unlock |
| SharedObject.SharedServerObject.Return | src/server/SharedServerObject.java:52 | the call ends |
| SharedObject.SharedServerObject.RunLine | src/server/SharedServerObject.java:37-69 | whichever line a thread is at, the class does what the protocol's step says |
| SharedObject.SharedServerObject.AwaitLock | src/server/SharedServerObject.java:38 | under the fair lock and finitely many requests the wait ends, whatever the others do |
| SharedObject.SharedServerObject.ReadLocked | src/server/SharedServerObject.java:39-50 | the locked part of a read, interrupted anywhere, leaves the lock with its record built |
| SharedObject.SharedServerObject.ReadValue | src/server/SharedServerObject.java:37-53 | a read interrupted anywhere returns its own record, with the register's value at the place of its number, a number above all drawn before the call, and exactly one copy in the read log |
| SharedObject.SharedServerObject.WriteLocked | src/server/SharedServerObject.java:57-66 | the locked part of a write, interrupted anywhere, leaves the lock with its record built |
| SharedObject.SharedServerObject.WriteValue | src/server/SharedServerObject.java:55-69 | a write interrupted anywhere returns its own record with the written value, a number above all drawn before the call, and exactly one copy in the write log |
| SharedObject.LoggedIsRecorded | src/server/SharedServerObject.java:47-51 | what a logged call's record says about history and log |
| SharedObject.OthersAreFree | src/server/SharedServerObject.java:37-69 | between two lines of a call any line of any other thread and any further call may happen |
| SharedObject.OtherClientsAreFree | src/client/socket/worker/Worker.java:36-55 | while a client sleeps or waits any line of any thread and any call of any other client may happen |
| SocketServer.ServerWorker.constructor | src/server/socket/ServerWorker.java:17-21 | N requests to accept, rSeq 1 |
| SocketServer.ServerWorker.Run | src/server/socket/ServerWorker.java:23-58 | for every pattern of accept errors and every interleaving: started + failed = N, rSeq is one above the started, numbers 1..m go out in order of acceptance, the loops end, and the published lines are the complete log: one record per well-formed accepted request and nothing else |
| SocketServer.ServerWorker.AcceptAll | src/server/socket/ServerWorker.java:35-49 | the accept loop starts exactly the accepted connections' requests, in order |
| SocketServer.ServerWorker.StartWorker | src/server/socket/ServerWorker.java:41-44 | one worker thread starts with the next rSeq |
| SocketServer.AcceptedCounts | src/server/socket/ServerWorker.java:35-49 | there is one request per accepted connection, and all other calls of accept are errors |
| SocketServer.AcceptedAt | src/server/socket/ServerWorker.java:37-44 | a connection's request has as many before it as connections were accepted before |
| SocketServer.ServerWorker.JoinAll | src/server/socket/ServerWorker.java:50-56 | after the join loop every worker has ended |
| SocketServer.ServerWorker.Join | src/server/socket/ServerWorker.java:52 | join returns when the thread has ended; those that had ended stay so |
| SocketServer.LoggedIsComplete | src/server/socket/ServerWorker.java:57 | if every request of a list that reaches the object is logged, the log holds exactly one record of each and nothing else, and sSeq is one above their number |
| SocketServer.ClientWorker.Run | src/server/socket/ClientWorker.java:24-74 | a well-formed line is served, logged and answered with its printed record; any other line gets no answer and leaves no record |
| RmiServer.Semaphore.constructor | src/server/rmi/RMIServerWorker.java:29 | the semaphore starts with the given permits, also negative ones |
| RmiServer.Semaphore.Release | src/server/rmi/ClientController.java:36 | one permit more |
| RmiServer.Semaphore.Acquire | src/server/rmi/RMIServerWorker.java:43 | one permit fewer, only if there is one |
| RmiServer.ClientController.constructor | src/server/rmi/ClientController.java:19-24 | rSeq 1 and no task released |
| RmiServer.ClientController.ExecuteTask | src/server/rmi/ClientController.java:25-35 | a call draws the next rSeq; it becomes a read of its id exactly if its type is "R" and its id not null, a write of its id and value exactly if its type is "W" and neither is null, and throws exactly if the type or an argument it needs is null; permits stay 1 - N + released tasks - permits taken |
| RmiServer.ClientController.Advance | src/server/rmi/ClientController.java:30-36 | each further line is a protocol step; a task that ends without an exception releases; permits stay 1 - N + released tasks - permits taken |
| RmiServer.RMIServerWorker.AwaitPermit | src/server/rmi/RMIServerWorker.java:43 | acquire may return at any moment at which a permit is there; without one, every call has been made and has ended |
| RmiServer.RMIServerWorker.Linger | src/server/rmi/RMIServerWorker.java:44-49 | between the permit and the file any number of calls and lines may follow; no permit is lost |
| RmiServer.RMIServerWorker.MoveOn | src/server/rmi/ClientController.java:25-37 | one event: the next call in the list or a line of any task |
| RmiServer.RMIServerWorker.Run | src/server/rmi/RMIServerWorker.java:28-50 | for all calls and interleavings: published exactly when at least N calls do not throw, where a call throws if its type is null or an argument that "R" or "W" needs is, not before N have released; and if at most N calls do not throw, or none reads or writes, the published log has one record of each call that reads or writes and nothing else |
| RmiServer.ServedCounts | src/server/rmi/ClientController.java:27-36 | the calls that release are those that do not throw, an unknown type included; the calls that reach the object are those of type "R" with an id and "W" with id and value |
| RmiServer.PermitIsComplete | src/server/rmi/RMIServerWorker.java:43-49 | with no more calls than expected the permit implies a complete log, also for the calls of the list not yet made |
| RmiServer.GateExact | src/server/rmi/RMIServerWorker.java:29-49 | for every list of calls and every N: the permit implies that each call made so far that reaches the object is recorded, and that the log is complete for the whole list, if and only if at most N of the calls end without an exception or none reaches the object |
| RmiServer.EarlyPublication | src/server/rmi/RMIServerWorker.java:43-49 | in all other cases a run exists in which all calls are made and the permit is there while one that reaches the object has not begun, so it is not recorded |
| RmiServer.GateForValidCalls | src/server/rmi/RMIServerWorker.java:29-49 | if all calls are valid, the permit implies a complete log if and only if there are at most N of them, or none |
| Clients.Worker.constructor | src/client/socket/worker/Worker.java:21-25 | an empty log |
| Clients.Worker.Execute | src/client/socket/worker/Worker.java:29-77 | for every pattern of answers, refused connections and lost answers, among any requests of other clients: the loop makes all its turns exactly if every turn is answered (RMI) or the first connection is not refused (sockets), and otherwise ends with the first unanswered turn (RMI) or after the first turn (sockets); the log has one record per answered turn, in strictly increasing sSeq and rSeq, each once in the server's log, a writer's with its id; a record of the client in the history that is not in its log belongs to one of the lost calls, and with none lost the log is, record for record, the client's part of the history |
| Clients.Worker.MakeRequest | src/client/socket/worker/Worker.java:41-75 | one turn: an answer adds one record, a refused connection or lost answer adds none; a lost request may still be served at any later time; the loop goes on after an answered turn (RMI), or if this turn or an earlier one had a connection (sockets) |
| Clients.Worker.Ask | src/client/rmi/RMIClient.java:40-47 | an answered turn, over either transport, adds the record the server built for this very call |
| Clients.Worker.Await | src/client/socket/worker/Worker.java:53-55 | the answer is the record of the client's own call, numbered above all that had drawn before |
| Clients.Worker.Sleep | src/client/socket/worker/Worker.java:36-40 | what the others do between two requests does not change what the client has of the history |
| Clients.Transport | src/client/rmi/RMIClient.java:40-47 | over both transports the server receives the client's request and the client receives the server's record |
| Clients.KeptIsLogged | src/client/socket/worker/Worker.java:56-62 | between two turns the client's records are in the history and once in the server's log, in order; what it lacks belongs to lost calls; with none lost its log is its part of the history |
| Clients.NewsIsWriterId | src/client/socket/worker/WriteWorker.java:13-15 | in runs driven by these clients each write publishes its writer's id and each read returns the id of the last writer before it, or -1 |
| Codec.PrintRecordIsInts | src/utils/log/record/WriteRecord.java:25-36 | the text built append by append is the fields joined by spaces and a line feed |
| Codec.IntsRoundTrip | src/utils/log/record/WriteRecord.java:17-36 | a printed line of 32-bit ints splits, trims and parses to these ints, with and without its line feed |
| Codec.RecordRoundTrip | src/utils/log/record/ReadRecord.java:19-41 | for all 32-bit fields, parsing the printed record gives the record back, as RMI returns it and as readLine delivers it |
| Codec.MessageSplits | src/client/socket/worker/WriteWorker.java:13-15 | the request line splits into tag and id, for a writer twice the id |
| Codec.RequestRoundTrip | src/server/socket/ClientWorker.java:35-49 | for every 32-bit id the server recovers type and id from the client's line, and the value written is the id; the same for the RMI call |
| CodecLaws.ServeLineExact | src/server/socket/ClientWorker.java:35-49 | for every line: it is a read of id exactly if its first two words are "R" and a text of id, a write of id and value exactly if its first three words are "W" and texts of id and value, in this order, and every other line throws |
| CodecLaws.PlainLines | src/server/socket/ClientWorker.java:37-45 | the line "W" id value writes value for id, for all 32-bit ids and values, equal or not |
| CodecLaws.ServeCallExact | src/server/rmi/ClientController.java:27-35 | for every remote call: when it reads, when it writes and which value, when it throws, and that all others touch nothing |
| CodecLaws.ParseRecordExact | src/utils/log/record/ReadRecord.java:19-26 | a text gives a record exactly if its first five (for a write, four) pieces, trimmed, parse to the fields in the order sSeq, rSeq, oVal, rNum, client id; further pieces do not matter |
| Text.PrintIntParses | src/utils/log/record/ReadRecord.java:21-25 | parseInt inverts valueOf on all 32-bit ints, the minimum included |
| Text.PrintIntShape | src/utils/log/Log.java:57-60 | a printed int has 1 to 11 characters, none a blank |
| Text.SplitOfJoin | src/utils/log/record/ReadRecord.java:20 | split undoes joining with spaces |
| TextLaws.ParseIntExact | src/utils/log/record/ReadRecord.java:21-25 | parseInt accepts exactly an optional sign, any zeros and the digits of a 32-bit int, as that int |
| TextLaws.DecimalExact | src/utils/SystemConfiguration.java:145 | the printed text of a number is the only text without sign and leading zero that parses to it |
| TextLaws.SplitExact | src/utils/log/record/ReadRecord.java:20 | split yields the words of a text: without spaces, the last not empty, and joined, with some empty words after them, the text again |
| TextLaws.FirstWords | src/server/socket/ClientWorker.java:36 | the first pieces of split are the words the text starts with |
| TextLaws.TrimExact | src/utils/log/record/ReadRecord.java:21-25 | trim leaves the part between the first and the last visible character |
| TextLaws.ReadLineExact | src/server/socket/ClientWorker.java:35 | readLine yields nothing exactly if nothing arrives, and else all up to the first line feed or carriage return |
| Text.IndexOf | src/utils/SystemConfiguration.java:147-155 | the first occurrence, or -1 exactly if there is none |
| Logs.Log.constructor | src/utils/log/Log.java:18-21 | both lists start empty |
| Logs.Log.AddToLog | src/utils/log/Log.java:23-29 | a record is appended to the list of its kind, the other list stays |
| Logs.Log.WriteServerLog | src/utils/log/Log.java:37-81 | the titles and the rows line by line: row i of the readers shows sSeq, oVal, rID, rNum of read i, an empty line, row i of the writers shows sSeq, oVal, wID of write i, all right-aligned under their titles |
| Logs.Log.WriteReaderLog | src/utils/log/Log.java:83-105 | the reader's file: client type, name and titles, and line 3 + i has 62 characters whose columns parse to rSeq, sSeq and oVal of read i, in this order |
| Logs.Log.WriteWriterLog | src/utils/log/Log.java:107-128 | the writer's file: client type, name and titles, and line 3 + i shows rSeq and sSeq of write i |
| Logs.RowShape | src/utils/log/Log.java:54-61 | a row of n 32-bit ints has 21n - 1 characters, and each column, trimmed and parsed, gives back its int |
| Logs.TextRowAligns | src/utils/log/Log.java:52-60 | a formatted row of texts of up to 20 characters has them right-aligned in columns of 20, one space between two |
| Logs.RowShows | src/utils/log/Log.java:54-61 | a row of 32-bit ints has each of them right-aligned in its column, where it parses back |
| Logs.ServerFileLines | src/utils/log/Log.java:48-77 | the server file line by line |
| Logs.ReaderFileLines | src/utils/log/Log.java:93-103 | the reader file line by line |
| Logs.WriterFileLines | src/utils/log/Log.java:117-126 | the writer file line by line |
| Logs.ServerRowShape | src/utils/log/Log.java:52-77 | rows of server reads have 83 characters, of server writes 62, of reader files 62, of writer files 41 |
| Logs.LogFileNames | src/utils/log/Log.java:87 | a client's file is named log, its id, .txt, and two clients write the same file exactly if their ids are equal |
| Logs.ServerRowCells | src/utils/log/Log.java:56-60 | the columns of a server row show, in this order, sSeq, oVal, the client's id and, for reads, rNum |
| Logs.ServerLogDetermines | src/utils/log/Log.java:48-77 | two equal server files list the same columns in the same rows, and as many reads and writes |
| Publication.FileDeterminesHistory | src/utils/log/Log.java:48-77 | two runs that publish the same complete log have histories of the same length that agree, place by place, in kind, sSeq, oVal, client id and (for reads) rNum (rSeq is not in the file) |
| Configuration.ReadProperties | src/utils/SystemConfiguration.java:85-89 | the loop throws exactly when a line has no '=' after its first three characters, and otherwise builds the table of last values |
| Configuration.LastWins | src/utils/SystemConfiguration.java:85-89 | the table's value of a key is that of the last line with the key, and there is none exactly if no line has it |
| Configuration.LineExact | src/utils/SystemConfiguration.java:88 | a line has a key and a value exactly if it is three characters but '=', the key, which has no '=', an '=' and the value |
| Configuration.LookupExact | src/utils/SystemConfiguration.java:85-89 | the table's value is what the last such line with the key says |
| Configuration.HostAtExact | src/utils/SystemConfiguration.java:144-171 | entry i of a tag is the host on the last line whose key is the tag and the decimal text of i without sign or leading zero |
| Configuration.AcceptableExact | src/utils/SystemConfiguration.java:84-203 | a file is accepted exactly if every line is a property, the required keys are there with 32-bit ints where ints are due, 0 <= W <= R, and every reader and writer has its entry line |
| Configuration.WrapExact | src/utils/SystemConfiguration.java:191 | Java int arithmetic gives the int that differs by a multiple of 2^32 |
| Configuration.PermutedFile | src/utils/SystemConfiguration.java:84-139 | permuting a file with distinct keys changes neither its acceptance nor any value or host read from it |
| Configuration.HostExact | src/utils/SystemConfiguration.java:146-165 | a host entry parses to user, address and password exactly if it is `user@address password`, or `user@address` with an empty password, where the user has no '@' or space and the address no space |
| Configuration.FullHostParses | src/utils/SystemConfiguration.java:146-165 | printing `user@address password` and parsing returns the three parts, for every user without '@' or space, every address without space and any password |
| Configuration.ParsedDenotes | src/utils/SystemConfiguration.java:146-165 | an accepted entry is the text of the host it is parsed to |
| Configuration.ReadHost | src/utils/SystemConfiguration.java:146-165 | the index arithmetic of the host loops computes that parse and fails exactly where substring throws |
| Configuration.ReadHosts | src/utils/SystemConfiguration.java:144-171 | a host loop succeeds exactly if for every i below n the last line with the key tag and decimal i gives a host and the array of names is long enough; then entry i of the arrays is that host, and the ids are consecutive |
| Configuration.ReadInt | src/utils/SystemConfiguration.java:107-113 | a required number is read exactly if its key is there and its text is a 32-bit int |
| Configuration.SystemConfiguration.constructor | src/utils/SystemConfiguration.java:78-228 | error is set exactly if the file cannot be read or is not complete in the sense of AcceptableExact; otherwise every field and every array entry says what the last line with its key says, readers have ids 1..R and writers W+1..2W |
| Configuration.SystemConfiguration.ReadScalars | src/utils/SystemConfiguration.java:91-139 | the required keys |
| Configuration.SystemConfiguration.ReadReaders | src/utils/SystemConfiguration.java:140-171 | readers 0..R-1 with ids 1..R; a negative count is an error |
| Configuration.SystemConfiguration.ReadWriters | src/utils/SystemConfiguration.java:172-203 | writers 0..W-1 with ids W+1..2W, in Java int arithmetic; an error exactly if W is negative, an entry is bad, or W exceeds R |
| Configuration.IdsDistinct | src/utils/SystemConfiguration.java:159-191 | in an accepted configuration readers have distinct ids and so have writers; a reader and a writer never share one exactly if W = 0 or W = R |
| Configuration.IdsCanClash | src/utils/SystemConfiguration.java:172-191 | an accepted file whose second reader and only writer have the same id |
| Deployment.FleetLog | src/main/Start.java:49-105 | whenever the requests made are a number of accesses by each client of a fleet and are all logged, the log is the disjoint union of the clients' parts of the history, each of that many records, and the file has one row for each |
| Deployment.FleetDistinct | src/main/Start.java:66-105 | the clients of an accepted configuration are distinct, and no two write the same log file exactly if W = 0 or W = R |
| Deployment.CreateClients | src/main/Start.java:66-105 | the loops launch the readers with ids 1..R and the writers with theirs, in this order |
| Deployment.ExpectingExact | src/main/Start.java:51 | the number of requests the server is told is an int that differs from (R + W) * A by a multiple of 2^32 |
| Deployment.WorkloadSize | src/main/Start.java:49-51 | if each client makes A accesses there are exactly (R + W) * A requests, and all release the semaphore |
| Deployment.SomeWorkload | src/main/Start.java:66-105 | every fleet and number of accesses has such a list of requests |
| Deployment.ServeBySocket | src/server/socket/ServerWorker.java:23-58 | the socket server of an accepted configuration, with the clients' connections: whatever the interleaving, it publishes (R + W) * A rows, the clients' own records put together, A of each |
| Deployment.ServeByRmi | src/server/rmi/RMIServerWorker.java:28-50 | the RMI server of an accepted configuration, with the clients' calls: whatever the interleaving, it gets its permit and publishes (R + W) * A rows, the clients' own records put together, A of each |

## Left out

- RmiServer.ClientController.ExecuteTask: one remote call is split at its atomic lines (this method, then `Advance`), because the semaphore counts the releases of interleaved calls; `ReadValue` and `WriteValue` are the uninterrupted texts of the part in between.
- Clients.Worker.Execute: the loops of the socket worker and of the RMI client are one method with the transport and the outcome of each turn as parameters; after an exception has left the loop no client file is written.
- Configuration.SystemConfiguration.constructor: which fields are already set when an error is found is not stated; the source's callers look at no field of an invalid configuration.
- SocketServer.ServerWorker.Run: the line a connection will deliver is a parameter, fixed when the connection is accepted.
- RmiServer.RMIServerWorker.Run: a server whose permit never comes waits for ever in the source; the method returns with `published` false when all calls have ended. The file is written from the lists as they are at one moment; appends while the source walks through them are not modelled.
- The implementation of the lock, of atomics and of synchronized lists: their documented contracts are single steps; reentrancy and upgrading are not used by the source.
- Thread interrupts, the Java memory model, random sleeps (they only add interleavings) and the lazy creation of the shared object.
- Wrap-around of the counters: runs are unbounded in the protocol; `CountersFit` shows that nothing wraps while N + 1 is a 32-bit int.
- Digits outside ASCII, which `Integer.parseInt` also accepts, and the platform's line separator.
- Deployment.ServeBySocket: N = (R + W) * A is taken where the product fits into an int; `Expecting` is the wrapped product, and a server created with a wrapped N is covered by the servers' own contracts only.
- Sockets, the RMI registry, files, console output, SSH and process handling.
