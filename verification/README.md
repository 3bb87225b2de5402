# Verified models of the Linux IPC and socket examples

This project models the concurrent protocols and buffer loops of a collection of small Linux programs and proves
what they promise, over every run, every interleaving and every way the kernel may cut transfers into pieces.

| file | what it models |
|---|---|
| Runs.dfy, Sums.dfy, Bytes.dfy | runs of a transition system with their invariants and measures; sums; bytes and C strings |
| EchoLink.dfy | one connection to the echo server: two bounded byte channels and the server's chunk loop |
| EchoRound.dfy, EchoProgress.dfy | the echo client against that server; when a round can block, and why it otherwise ends |
| EchoProcess.dfy | the client's loops over its two buffers, with the server's loop interleaved by any scheduler |
| ForkServer.dfy, ForkProcess.dfy | the forking server: parent, children, descriptors, all connections at once; the parent's loop |
| ForkClients.dfy | the forking server with an echo client at every connection: the deadlock of one among the others |
| Sockets.dfy | the partial send and receive loops, and the echo server's loop, over a socket |
| PartialTransfer.dfy, TransferProcess.dfy | sender against receiver, with their closes; the two loops over their buffers, interleaved |
| MutexCounter.dfy, CounterProcess.dfy | threads, mutex, log and counter; the program's statements and its main function |
| ByteMonitor.dfy, MonitorProcess.dfy | the snapshot-diff monitor, reading byte by byte; its loop over the shared memory |
| OneWriter.dfy, Senders.dfy | how often a program of stores can be counted; the POSIX and the System V sender as such programs |
| MessageBound.dfy, PacedMessages.dfy | how often messages of several stores are counted: from any writers, and under pacing |
| AtomicMonitor.dfy, MonitorRefinement.dfy | the monitor by whole polls, and how the two are related |
| SysvSemaphores.dfy | the semaphore set and its clients |
| SharedCount.dfy, CountMonitor.dfy | the semaphore-guarded counter that is incremented without a lock; the monitor that watches it |
| RequestReader.dfy | the byte-at-a-time request loop of the hello-world server |
| PageRounding.dfy | the page-rounding macro |

## How to read it

Each protocol is a machine: a `State`, a `Step` datatype with one constructor per atomic action, `Enabled` (when a
system call can proceed) and `Apply` (what it does). A run is a sequence of states each of which follows from the one
before. The classes EchoProcess.EchoSystem, ForkProcess.Server, TransferProcess.Transfer, CounterProcess.Program,
MonitorProcess.Monitor and SharedCount.DataInfo hold the programs' own variables and buffers; each of their atomic actions
adds one state to the ghost field `trace`, and `Valid()` says that `trace` is a run of the machine. So the theorems about
runs hold of their loops. The `while` loops in them choose freely, wherever the scheduler or the kernel may, which process
moves next and how many bytes a call transfers. Sockets.Socket, SysvSemaphores.SemaphoreSet and RequestReader.Server stand
for one owner and have no `trace`: their methods are proved against functions of the state before.

What the environment is taken to do:

* Channels are first in, first out, and bounded. `read` and `recv` deliver between one byte and what was asked for, and
  0 only at end of stream or for a request of length 0; `send` accepts at least one byte. Sockets.Socket may also fail.
* The partial-transfer loops take any size up to INT_MAX; the program's sender passes the size of a pointer.
  A `send` to a receiver that has closed ends the sender, by its error or by the signal that comes with it.
* The echo server has no read errors, and its `write` delivers the whole chunk, in as many pieces as the channel takes.
  When `shortWrites` is set a signal may make the client's `write` return early; otherwise it is a full blocking write.
  No result about progress counts on such a signal, with one exception: EchoProcess.EchoSystem.Write and what calls it
  also cover messages that can deadlock, and there take a signal to come whenever client and server are both blocked.
* A line typed into the echo client is shorter than its buffer, so that the terminator fits; an empty line stands for a
  read of 0 or -1. The server stays connected.
* Unset `sem_flg` is taken to be 0, so semaphore operations block. A semaphore's value is at most SEMVMX, 32767.
* A store of a word, such as a pid, is one step; `memset` and `strcpy` store, and `memcmp` and `memcpy` read, byte by byte.
* A child of the forking server is followed up to its return from `do_echo`. The file has no exit after that call.

## What comes out

* An echo round can deadlock, and exactly when: some run blocks until a signal comes if and only if the message is at
  least two bytes longer than the two channels together. Client and server then both sit in `write`. With the forking
  server the same holds of each client by itself: what the others send, and when, neither causes it nor cures it.
* The monitor's count is bounded by the stores that change something, not by messages. A writer can be counted any number
  of times up to the number of its stores that change anything when they are carried out in order, and the limit; so at most
  once, whatever the timing, exactly when that number is at most 1 or the limit is 1 (`OneWriter.CountsPossible`,
  `OneWriter.CountedOnceIff`). For the POSIX sender the number is that of the parts that differ from what is there. The
  System V sender clears the segment first, so for it the number is nonzero(segment) + 1 + the length of the message: it
  can be counted twice even for a message that is already there, which the POSIX sender never is (`Senders.ResentMessage`).
* The monitor of the semaphore-guarded counter can count one get up to three times, each put once and the initialisation
  once. When it has stopped after five counts, all that follows is puts + 3 * gets >= 4 (`CountMonitor.FiveCounts`).
* Messages bound the count in every run in which no detection falls between two changing stores of the same message
  (`MessageBound.CountedPerMessage`). If moreover a whole poll separates any two, each is counted once and saved whole
  (`PacedMessages.EachMessageCountedOnce`), and any messages can be paced so. That writers keep out of the polls is not enough: a poll between two stores of
  a message saves half of it. What the memory never held is then still not saved (`QuietMonitorSavesSamples`).
* The unlocked `count += 1` never loses an increment if and only if there is at most one process; in a given run, if and
  only if no store falls between another process's load and its store. `AllButOneLost` is a run, for any number of
  processes, that keeps a single increment of all.
* The sender of a partial transfer can fail exactly when the message is longer than the receiver's buffer, because the
  receiver then closes without reading the rest; and can return 0 exactly when the message fits buffer and channel together.
* In the forking server a child's progress depends on its own connection only; one whose client has closed its end and
  goes on reading returns after boundedly many moves of its own.
* A request ended by a newline is never answered by the hello-world server, because the newline stays in the string it
  compares; one cut off by end of stream runs on into what an earlier connection left in the buffer.
* Its read loop stores outside its buffer exactly when another byte arrives after BUFSIZ bytes other than carriage returns;
  with fewer it may still leave a buffer without a NUL, and exactly when is `RequestReader.NulRemainsIff`.

## Model

| member | source | states |
|---|---|---|
| EchoLink.EchoIsPrefix | tcp_ip_programming/just_study/8.echo_service_tcp/echo_server.c:40-45 | for every client and chunking, what came back is a prefix of what was sent, nothing is lost or reordered, and once the server saw end of stream all of it is written back |
| EchoRound.EchoConservation | tcp_ip_programming/just_study/8.echo_service_tcp/echo_client.c:40-71 | at every state of every run: received, down channel, server buffer and up channel together are all bytes sent over all rounds, in order |
| EchoRound.RoundsAreCorrect | tcp_ip_programming/just_study/8.echo_service_tcp/echo_client.c:47-66 | every printed echo is the prefix of its own message that write() accepted, and the whole message when writes are full |
| EchoRound.RoundsAreIsolated | tcp_ip_programming/just_study/8.echo_service_tcp/echo_client.c:52-66 | when n_left is 0 the echo is complete and both channels and the server buffer are empty |
| EchoProgress.StuckIffBothBlocked | tcp_ip_programming/just_study/8.echo_service_tcp/echo_client.c:47-63 | the only states from which neither side can go on are those with both channels full, the server holding bytes and the client still writing |
| EchoProgress.OnlyInterruptionFrees | tcp_ip_programming/just_study/8.echo_service_tcp/echo_client.c:47-50 | from there the only step is a signal that cuts the client's write() short, if it can be |
| EchoProgress.DeadlockCharacterisation | tcp_ip_programming/just_study/8.echo_service_tcp/echo_client.c:47-63 | a round can get stuck if and only if the message has at least cUp + cDown + 2 bytes, whether or not a signal could cut the write short |
| EchoProgress.NoStuckState | tcp_ip_programming/just_study/8.echo_service_tcp/echo_server.c:40-43 | no state of a round of a shorter message is stuck |
| EchoProgress.NeverStuck | tcp_ip_programming/just_study/8.echo_service_tcp/echo_client.c:40-71 | over whole conversations of such messages no round ever gets stuck |
| EchoProgress.DeadlockRun | tcp_ip_programming/just_study/8.echo_service_tcp/echo_server.c:40-43 | for every longer message, a run that ends with client and server both blocked in write() |
| EchoProgress.RoundAlwaysCompletes | tcp_ip_programming/just_study/8.echo_service_tcp/echo_client.c:54-63 | every run of such a round is at most 4n + 4 states long, and a maximal one has logged the echo and left the link empty |
| EchoProcess.EchoSystem.Write | tcp_ip_programming/just_study/8.echo_service_tcp/echo_client.c:47-50 | under any scheduler the write returns, having put exactly the first n bytes on the wire |
| EchoProcess.EchoSystem.EchoOnce | tcp_ip_programming/just_study/8.echo_service_tcp/echo_client.c:47-66 | one round of the loops terminates under any scheduler with rcvBuffer equal to the accepted prefix of sndBuffer and the link empty |
| EchoProcess.EchoSystem.Converse | tcp_ip_programming/just_study/8.echo_service_tcp/echo_client.c:40-73 | for every list of lines the client prints the echo of each non-empty line, cut at its first NUL, up to "quit", and then closes |
| EchoProcess.QuitEndsIt | tcp_ip_programming/just_study/8.echo_service_tcp/echo_client.c:43-45 | the line "quit" with its newline ends the conversation; without the newline it is echoed |
| EchoProcess.EchoSystem.ServerMove | tcp_ip_programming/just_study/8.echo_service_tcp/echo_server.c:40-44 | each move of the server's loop over its buffer adds exactly one state to the trace, by one step of the server, and brings the round nearer to its end |
| Sockets.DoEcho | tcp_ip_programming/just_study/12.fork_echo_service/echo_fork_server.c:13-21 | do_echo writes back everything up to end of stream, in order, and nothing else |
| Sockets.ServeInTurn | tcp_ip_programming/just_study/8.echo_service_tcp/echo_server.c:37-46 | the iterative server gives each connection its own bytes back, one connection after the other |
| ForkServer.DescriptorOwnership | tcp_ip_programming/just_study/12.fork_echo_service/echo_fork_server.c:47-60 | no child holds another connection; exact reference counts of each connection and of the listening socket, at every state |
| ForkServer.ProjectionIsEchoRun | tcp_ip_programming/just_study/12.fork_echo_service/echo_fork_server.c:47-60 | any run of parent, children and clients, seen from one connection, is a run of the single-connection echo loop |
| ForkServer.EachClientGetsItsOwnEcho | tcp_ip_programming/just_study/12.fork_echo_service/echo_fork_server.c:13-21 | each client's output is a prefix of its own input, and all of it is written back when its child returns from do_echo |
| ForkServer.ClosedConnectionsReturn | tcp_ip_programming/just_study/12.fork_echo_service/echo_fork_server.c:13-21 | of the steps of any run, only boundedly many change a connection whose client has closed, whatever the others do; and when it can make none its child has returned from do_echo |
| ForkProcess.Server.Serve | tcp_ip_programming/just_study/12.fork_echo_service/echo_fork_server.c:47-61 | the parent exits exactly if its last fork() returned -1, and holds nothing then; otherwise it has made all the passes, with one child per connection, and holds only the listening socket; always so if fork() never fails |
| ForkProcess.Server.AcceptOne | tcp_ip_programming/just_study/12.fork_echo_service/echo_fork_server.c:49-56 | one pass calls fork() once, and goes on to accept, with one child more, exactly if that succeeds |
| ForkProcess.Server.ChildMoves | tcp_ip_programming/just_study/12.fork_echo_service/echo_fork_server.c:57-60 | the child's next step is taken if it is possible, and adds exactly that state to the trace |
| ForkClients.StuckIffBlocked | tcp_ip_programming/just_study/12.fork_echo_service/echo_fork_server.c:13-21 | a client and its child are stuck exactly when both are blocked in write() on their own connection, whatever all the others are doing |
| ForkClients.OthersLeaveAlone | tcp_ip_programming/just_study/12.fork_echo_service/echo_fork_server.c:47-60 | no step of the parent, of another child or of another client makes a client stuck, or frees it |
| ForkClients.StuckForGood | tcp_ip_programming/just_study/12.fork_echo_service/echo_fork_server.c:13-21 | in every run a stuck client stays exactly where it is, unless a signal interrupts its own write() |
| ForkClients.CanGetStuckIff | tcp_ip_programming/just_study/8.echo_service_tcp/echo_client.c:47-63 | among any other clients, one about to write a message can get stuck on it if and only if it has at least cUp + cDown + 2 bytes |
| ForkClients.StepOfClient | tcp_ip_programming/just_study/12.fork_echo_service/echo_fork_server.c:47-60 | seen from any one client, each step of the whole is a step of that client alone with the single echo server, or nothing |
| ForkClients.EveryEchoIsItsOwn | tcp_ip_programming/just_study/8.echo_service_tcp/echo_client.c:47-66 | at every state of every run, whatever each client has printed is the accepted part of its own message, in full when writes are |
| Sockets.PartialMessageRecv | socket_example/main.c:39-53 | each recv() asks for exactly the space left; it returns what the last one returned; on 0 exactly min(size, stream length) bytes are at the front of buf and nothing else has changed, on -1 what the earlier calls brought |
| Sockets.PartialMessageSend | socket_example/main.c:55-69 | each send() asks for exactly what is left; -1 exactly if the last one returned -1, with what the earlier ones accepted; on 0 exactly the first size bytes were accepted, once each and in order |
| PartialTransfer.BufferIsPrefix | socket_example/main.c:75-97 | at every state the receive buffer is a prefix of the message followed by the zeros set beforehand |
| PartialTransfer.TransferRoundTrip | socket_example/main.c:97-146 | every interleaving of the two loops and their closes is bounded, and ends with the message, cut to the buffer and followed by zeros; with the sender's 0 if it fits the buffer, and without if it does not fit buffer and channel |
| PartialTransfer.SenderFailsIff | socket_example/main.c:60-66 | some run makes the sender fail if and only if the message is longer than the receiver's buffer |
| PartialTransfer.SenderSucceedsIff | socket_example/main.c:60-68 | some run lets it return 0 if and only if the message fits buffer and channel together |
| TransferProcess.Transfer.RunToEnd | socket_example/main.c:39-69 | under any scheduler the two loops end; the receiver's array then holds the message, cut to its length, and zeros, and the sender has returned 0 if all of it fits |
| MutexCounter.NoLostUpdate | multi_thread_example/main.c:29-63 | for any threads: at most one is between lock and unlock, and the counter is the sum of all completed additions |
| MutexCounter.LogIsLinear | multi_thread_example/main.c:39-58 | the log starts at 0 and each gap is the increment of the thread that logged the earlier line |
| MutexCounter.LogIncreases | multi_thread_example/main.c:39-58 | with positive increments the logged values strictly increase |
| MutexCounter.FinalValue | multi_thread_example/main.c:77-96 | after all joins there is one line per iteration and the counter is the sum of quota times increment |
| MutexCounter.TwoThreadsFinalValue | multi_thread_example/main.c:22-23 | for the program's two threads: MAX_NUM + 10 * PLUS_NUM and MAX_NUM + 10 lines |
| MutexCounter.AllThreadsJoin | multi_thread_example/main.c:88-96 | every run is bounded, and one that can go no further has joined every thread unless an open failed |
| MutexCounter.SomeStepEnabled | multi_thread_example/main.c:32-44 | until then some thread or main can make a step: no deadlock |
| CounterProcess.Program.Advance | multi_thread_example/main.c:32-62 | each statement of a thread, executed on the shared variables, is its step of the machine; the process exits exactly when that statement is an open() that returns -1 |
| CounterProcess.Program.CreateAndJoin | multi_thread_example/main.c:65-96 | under any scheduler main returns with counter and log complete, 200 and 110 for the two threads, or exits exactly because the last open() returned -1; never if open() does not fail |
| ByteMonitor.MonitorBound | shared_memory_example/main.c:69-81 | each counted difference has a changing store of its own between the start of one copy and the next detection, so the count never exceeds those stores |
| OneWriter.CountedAtMost | shared_memory_example/main.c:69-94 | no run counts a writer more often than its stores, in order, change anything, nor more often than the limit |
| OneWriter.CountsPossible | shared_memory_example/main.c:69-94 | for every program of stores, a run can carry it all out and count it n times if and only if n is at most the number of stores that change anything, and the limit |
| OneWriter.CountedOnceIff | shared_memory_example/main.c:69-94 | every run counts it at most once if and only if at most one store changes anything, or the limit is 1 |
| Senders.PosixSends | shared_memory_example/main.c:93-94 | the POSIX sender leaves size and message in the segment, and changes it once for the size, if that differs, and once for each byte of the message that differs |
| Senders.PosixCountedOnceIff | shared_memory_example/main.c:86-97 | its message is counted at most once whatever the timing if and only if at most one of those differs, or the limit is 1 |
| Senders.SysvSends | shared_memory_example/main.c:117-171 | the System V sender leaves the message in an otherwise clear segment, and changes it nonzero(segment) + 1 + length times |
| Senders.SysvCountedOnceIff | shared_memory_example/main.c:159-174 | its message is counted at most once whatever the timing if and only if it is empty and the segment was clear, or the limit is 1 |
| Senders.ResentMessage | shared_memory_example/main.c:86-174 | a message that is already there is never counted when the POSIX sender sends it, and can be counted more than once when the System V sender does |
| MessageBound.CountedPerMessage | shared_memory_example/main.c:69-94 | writers anywhere: if no detection falls between two changing stores of one message, the count is at most the number of messages that changed anything |
| PacedMessages.EachMessageCountedOnce | mmap_example_2/main.c:133-150 | byte by byte: if each message changes the value, no difference is detected while it is being stored and a whole poll separates any two, the saved snapshots are the messages, whole, once each and in order, with at most the latest still to come |
| PacedMessages.AnyMessagesCanBePaced | mmap_example_2/main.c:125-150 | every sequence of messages, each other than the one before, has such a run, in which one poll after each message saves them all |
| MonitorProcess.Monitor.Watch | shared_memory_example/main.c:143-156 | the loop over the shared memory, with writers between any two byte reads: it polls until its limit and its count never exceeds the stores that changed anything |
| MonitorProcess.QuietPoll | mmap_example_2/main.c:77-79 | an undisturbed poll finds a difference exactly when there is one, and then the local copy is the shared memory |
| MonitorRefinement.QuietRunRefines | mmap_example_2/main.c:139-147 | with writers outside the polls, every byte-level run is matched by a run of the one-step monitor with the same samples |
| MonitorRefinement.QuietMonitorSavesSamples | mmap_example_2/main.c:139-147 | the count is then the number of de-stuttered samples and the local copy the last of them; a sample is a value the memory held, perhaps in the middle of a message |
| AtomicMonitor.SavedIsDestutteredHistory | mmap_example_2/main.c:133-150 | saved snapshots are the de-stuttered samples: a subsequence of the write history with neighbours distinct |
| AtomicMonitor.PacedMonitorIsComplete | mmap_example_2/main.c:69-150 | if each update changes the value and a poll falls between any two, every update is recorded once, in order, and the monitor stops exactly at its limit, or never without one |
| PacedMessages.AnonMonitorRecordsAll | mmap_example_2/main.c:125-173 | so the anonymous monitor, byte by byte, saves exactly the FORK_NUM messages, in the order written, and leaves its loop |
| SysvSemaphores.SemaphoreSet.Init | semaphore_example/main.c:62-76 | the values are 1, 5, 1, 5, 1 |
| SysvSemaphores.SemaphoreSet.Get | semaphore_example/main.c:92-99 | for an index of the set: takes one permit of the semaphore of that very index, or blocks at 0; other indices count modulo 65536, and outside the set it fails; no other value changes in any case |
| SysvSemaphores.SemNumIsIndex | semaphore_example/main.c:95 | an index below 65536 is kept, and those that differ by a multiple of 65536 act alike |
| SysvSemaphores.SemaphoreSet.Release | semaphore_example/main.c:101-108 | for an index of the set: gives one permit to the semaphore of that very index, or fails at SEMVMX; it never blocks; other indices count modulo 65536, and outside the set it fails; no other value changes in any case |
| SysvSemaphores.SemaphoreSet.Wait | semaphore_example/main.c:110-117 | for an index of the set: completes exactly when the semaphore of that very index is 0, and otherwise blocks; it changes nothing |
| SysvSemaphores.SemaphoreConservation | semaphore_example/main.c:92-117 | over every run each value is its initial value plus releases minus gets, between 0 and SEMVMX, and with what clients hold always the initial value |
| SysvSemaphores.HoldersAreBounded | semaphore_example/main.c:62-117 | if clients release only what they hold: holders never exceed the initial value, a binary semaphore excludes, and wait0 completes only when every permit is held |
| SharedCount.RacyBounds | semaphore_example/main.c:206-229 | granted gets never exceed SEM_NUM + puts; the counter stays between its initial value (plus one after a store) and that plus the stores |
| SharedCount.CountIsExactIffSerial | semaphore_example/main.c:208 | at any point of a run no increment has been lost if and only if, so far, no store fell at a position between another process's load and its store |
| SharedCount.NeverLosesAnyIffAlone | semaphore_example/main.c:206-208 | no run ever loses an increment if and only if there is at most one process |
| SharedCount.AllButOneLost | semaphore_example/main.c:208 | for any number of processes, a run after which the counter is just one above its start |
| SharedCount.PidIsLatest | semaphore_example/main.c:207 | in every run the segment ends up with the pid of the process whose pid store came last, by position in the run, and with 0 before any |
| SharedCount.DataInfo.RunToEnd | semaphore_example/main.c:206-229 | under any scheduler, with others putting, every get completes; then sem plus the gets is SEM_NUM plus the puts, the counter is above its start by at least one and at most the number of gets, and the pid is that of the latest get to store it |
| CountMonitor.CountedAtMost | semaphore_example/main.c:170-184 | the monitor's count is at most one for the initialisation, one for each put and three for each get, and at most the limit |
| CountMonitor.CountsPossible | semaphore_example/main.c:170-229 | so many gets can all complete with so many puts and be counted n times if and only if there are permits for them and n is within that bound |
| CountMonitor.FiveCounts | semaphore_example/main.c:183 | the monitor can stop at its five counts after just these gets and puts if and only if puts + 3 * gets >= 4, and can also have counted none of them |
| RequestReader.StoresInsideIff | tcp_ip_programming/just_study/2.hello_world/server.c:54-64 | every store of the loop is inside the buffer if and only if fewer than BUFSIZ filtered bytes come before the request ends, or exactly BUFSIZ, the last not a carriage return, and then the stream ends |
| RequestReader.OverflowingRequest | tcp_ip_programming/just_study/2.hello_world/server.c:56-61 | more ordinary bytes than BUFSIZ: one is stored just behind the buffer |
| RequestReader.Server.Handle | tcp_ip_programming/just_study/2.hello_world/server.c:54-72 | whenever no store falls outside: what one connection leaves in the reused buffer, byte for byte, and the reply, judged on its own request |
| RequestReader.NulRemainsIff | tcp_ip_programming/just_study/2.hello_world/server.c:56-66 | for each way a request can end, exactly when the buffer still holds a NUL for the printf to stop at |
| RequestReader.TerminatorSurvives | tcp_ip_programming/just_study/2.hello_world/server.c:10-66 | if no request reaches the last cell, its NUL is there after any number of connections |
| RequestReader.ComparisonStaysInside | tcp_ip_programming/just_study/2.hello_world/server.c:69 | the comparison is decided by the first bytes of the buffer, even without a NUL in it |
| RequestReader.ReplyMeaning | tcp_ip_programming/just_study/2.hello_world/server.c:56-72 | that C string is the request without carriage returns when NUL ended it; never "print" after a newline or a last carriage return; else it runs on into the old buffer |
| RequestReader.OwnReplyIff | tcp_ip_programming/just_study/2.hello_world/server.c:56-72 | the answer is the one the filtered request deserves by itself if and only if: NUL ended it; or it is not "print" and a newline ended it or a carriage return came last; or the stream ended and what was in the buffer before makes no difference |
| RequestReader.PrintIsAnswered | tcp_ip_programming/just_study/2.hello_world/server.c:56-72 | a request ended by NUL is answered exactly if without its carriage returns it is the five letters print |
| RequestReader.Server.Serve | tcp_ip_programming/just_study/2.hello_world/server.c:49-74 | over any sequence of connections what is left in the buffer, and each NUL-ended request answered exactly when its filtered bytes are "print" |
| PageRounding.RoundUpIsLeastMultiple | shared_memory_example/main.c:17 | of the wrapping addition and the bitwise mask: the result is at least x exactly when the addition does not wrap around, and then it is the least multiple of PAGE_SIZE not below x |
| PageRounding.AndClears | shared_memory_example/main.c:17 | a bitwise and with ones above k zeros clears exactly the k low bits |
| PageRounding.DataInfoTakesTwoPages | shared_memory_example/main.c:107 | the segment asked for is two pages |

## Left out

- Set-up and error reporting of sockets, files, mappings, keys and semaphore sets; time, sleeping and signals; usage text, menus and printing other than the thread log and the echo: calls into the kernel and the C library, represented only by the channels, cells, mutex and semaphores they provide.
- RequestReader.Server.Handle: assumes that no store falls outside the buffer (`RequestReader.StoresInsideIff` says when), because otherwise C gives the program no meaning; the guard on line 61 comes after the store it should prevent. What the printf on line 66 reads beyond a buffer without a NUL is not modelled.
- EchoProcess.EchoSystem.Converse: assumes lines shorter than BUFSIZ, because the terminator on line 42 has no room otherwise, and messages that cannot deadlock, because otherwise the loop need not return.
- ForkServer.EachClientGetsItsOwnEcho: nothing is said of a child after its return from do_echo, where the program goes on to accept on a closed descriptor; failing accept() calls are not modelled either.
- MonitorProcess.Monitor.Watch: runs a given number of polls of the endless loop, since a monitor whose writers stop never returns.
- The print between a detection and the copy is one step without reads, since what it prints is not kept. The monitor that copies before it prints is the same machine.
- SharedCount.RacyBounds: counter and semaphore are unbounded integers; wrap-around of the int and SEM_VALUE_MAX are not modelled.
- CountMonitor.CountedAtMost: the semaphore is its value only; an implementation that also keeps the number of waiting processes in it changes it, and can be counted, more often.
- Failure of pthread_create, which makes the program return early.
- The UDP, pipe, message-queue, lock-file, signal, timer and conversion examples, and the unfinished chat and talk programs: single exchanges, library calls or unfinished code with no invariant of their own.
