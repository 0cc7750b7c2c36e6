# Seven systems exercises, modelled and proved

The repository holds small C programs about concurrency, message passing and files. Seven of them
are more than system-call demonstrations: real protocols, or loops whose correctness is not
obvious. This project models those seven in Dafny and proves what they are for.

| program | what it is | modules |
|---|---|---|
| cw08 | print queue: users and printers over one ring buffer and three semaphores | `PrintQueueSpec`, `PrintQueueRuns`, `PrintQueue` |
| cw10 | Santa and the reindeer: a monitor with a counter and two condition variables | `SantaSpec`, `SantaRuns`, `SantaStray`, `Santa` |
| cw11 | chat server over sockets: client table, heartbeat, message codec | `RegistrySpec`, `Registry`, `Heartbeat`, `Codec` |
| cw07 | chat server over message queues with priorities | `ChatSpec`, `ChatRuns`, `ChatTexts`, `Chat` |
| cw09 | Game of Life computed by threads over two buffers | `LifeSpec`, `LifeRuns`, `Life`, `LifeLaws` |
| cw03 | file reversal, byte by byte and block by block | `Reverse` |
| cw06 | numerical integration, in one piece and split over processes | `Integral` |

`Basics`, `Totals` and `Modular` hold what several of them share: an option type, sums over a
sequence of threads, and remainders by a variable divisor. Every size the C code fixes with a
`#define` (number of slots, jobs, threads, reindeer, deliveries, grid sides, block size) is an
arbitrary parameter, except the message layout of cw11.

## How the concurrent programs are modelled

Each is a state machine. A state holds the shared memory, every thread's program counter and local
variables, and sometimes histories (what was put, taken, sent, logged, delivered) that no step
reads. A step is one access to shared state: a semaphore wait or post, one copied byte, one index
update, one lock, one wait on a condition, one send. A run is any sequence of enabled steps, so a
statement about all runs is a statement about all interleavings. The `...Spec` module has the
steps and an inductive invariant with the proof that every step keeps it; the `...Runs` module has
what follows for whole runs; the third module has the program's own form, a class whose fields are
updated in place. In cw08 and cw10 a method is one statement of the C code, proved to make exactly
one step of the state machine. In cw09 it is one thread's whole round, proved to end where that
many single writes and the exchange of the pointers end (`Round`). In cw07 and cw11 it is one
handler; for cw07 `HandlersAreAtomic` relates the handler to its single sends, and a handler of
cw11 has the table to itself.

The main results:

- **cw08** refines an indivisible bounded first-in first-out queue on every interleaving
  (`RunsRefineQueue`). The value of each semaphore is the queue length, or its complement, less the
  reservations held, from which mutual exclusion, absence of overwriting and absence of torn reads
  follow, although `memcpy` goes byte by byte. No job is lost, duplicated or reordered, the system
  is stuck exactly when everybody has left or waits on a semaphore that is rightly zero, and the
  number of steps between two actions of the queue is bounded. What a user puts into the queue is
  what its generator gave it, text for text.
- **cw10** delivers only to a herd that is wholly blocked, each reindeer having arrived exactly once
  more than there were deliveries, and each arrival after a holiday of its own. No wake-up is lost. A measure falls with every step, so a run
  has at most T(10 + 7N) steps plus 4 per spurious wake-up of Santa, and the only states where
  nothing can happen are those after exactly T deliveries with all N reindeer blocked.
- **cw11**'s table stands for a finite map from names to sockets, across every sequence of events.
  Swept slots keep stale socket numbers and the kernel reuses descriptors, yet an answer always
  reaches the right slot, because no slot before a used one carries the same socket; so a pinged
  client survives the sweep if and only if it answers.
- **cw07** sends every client its id and then one contiguous window of a single log, so any two
  clients agree on the order of the texts they share, and each sender's texts stay in order even
  when its exit overtakes them. What one client has been sent of another's texts is one stretch of
  what was typed there, and no queue ever holds more than its capacity.
- **cw09**'s threads compute, on every schedule of cell writes, what the sequential generation step
  computes; after k rounds the first buffer holds generation 2 * floor(k/2). Information travels
  at most k cells in k generations, at the clipped borders too. The rule is also told without
  counting, and two patterns are proved to have the fate they are known for, for ever.
- **cw03** writes the reverse of the file for every length and block size, although its first pass
  reads nothing when the size is a multiple of the block size and its last seek fails.
- **cw06** in exact reals: splitting the work conserves every step, and refining the grid k times
  lowers the sum by at most the drop of the integrand times one coarse step.

## Where the code does something else than one would expect

- `add_client` returns with the mutex still held when the name is taken (cw11/server.c:78).
  `HeldExactlyWhen` says when that happens, `HeldForGood` that afterwards the server at most accepts
  connections (its own thread blocks in the first handler that asks for the mutex) and its table
  never changes, and `SecondUseOfNameLocks` gives a run. Until then it
  behaves as if the mutex were always given back (`LockedRunsAreRuns`), which is what the other
  results about cw11 are about.
- `add_client` returns 0, and the client is told it is registered, when the table is full
  (cw11/server.c:82-92): `RegisteredExactlyWhen` has the condition, `FullTableAnswersZero` a run.
- The server of cw07 never gives a slot to a second client, even after the first has left, and does
  not look whether there is a slot left (cw07/server.c:17-18). A registration stays inside the
  table exactly while fewer clients than slots have ever registered (`RegistrationFitsExactlyWhen`,
  `CounterIsRegistrations`); in `EmptySlotIsNotReused` the one slot is empty and the next
  registration is out of bounds all the same.
- A reindeer's wait is not in a loop (cw10/main.c:39). A spurious wake-up there lets the counter say
  that all have arrived while one is still away: `StrayWakeUpMisleadsSanta`. Santa only ever
  delivers to a whole herd if and only if no delivery follows such a wake-up that fell while he was
  collecting, which is from the start of a round up to and including its delivery
  (`AlwaysWholeExactlyWhen`, `WholeExactlyWhen`); one between his reset and his broadcast is
  harmless.
- A connection that registers under two names fills two slots with one socket, and an answer lowers
  only the first slot's flag (cw11/server.c:184-189): `AnswerReachesExactlyWhen` has the condition,
  `SecondNameIsSwept` a client that is swept although it answered.
- Neither deleting nor adding a client lowers `awaiting_alive_response` (cw11/server.c:83-87 and
  100-105), so a client can be swept without ever having been pinged: `UnpingedClientIsSwept` gives
  a run, `NewcomerSurvivesIff` the exact condition.
- The timestamp is swapped as 32 bits but stored as a `time_t`, so a message between hosts of
  different byte order always arrives with timestamp 0 (`MixedOrdersLoseTimestamp`); between like
  hosts it arrives modulo 2^32.
- The byte-wise reversal reports failure on an empty file (its first seek fails), the block-wise one
  succeeds; both leave an empty output.
- The buffer that is drawn (cw09/life.c:99) is never exchanged, so only even generations are shown.
- The distributed integral overshoots the range unless dx divides 1 (`RangeCovered`).

## Model

| member | source | states |
|---|---|---|
| PrintQueueSpec.InitInv | cw08/printers_server.c:18-38 | the freshly set up queue, with every process about to start, satisfies the invariant |
| PrintQueueSpec.UserMoveBalances | cw08/users_client.c:35-42 | in every step of a user, what a semaphore loses or gains is matched by the user's own place and by the jobs put |
| PrintQueueSpec.PrinterMoveBalances | cw08/printers_server.c:51-60 | in every step of a printer, what a semaphore loses or gains is matched by the printer's own place and by the jobs taken |
| PrintQueueSpec.StepKeepsAccounting | cw08/printers_server.c:20-36 | mutex plus processes inside is 1; full is the queue length, and empty its complement, less the reservations and the slots not yet posted; every step of every process keeps this |
| PrintQueueSpec.MutualExclusion | cw08/users_client.c:36-42 | at most one process of either kind is between its wait and its post on the mutex, and none while the mutex is up |
| PrintQueueSpec.Reservations | cw08/users_client.c:35-36 | a user past its wait on empty finds a free slot, a printer past its wait on full finds a job |
| PrintQueueSpec.UserMoveKeepsRing | cw08/users_client.c:38-39 | no step of a user, not even a half-finished copy, disturbs the untaken jobs in the ring |
| PrintQueueSpec.PrinterMoveKeepsRing | cw08/printers_server.c:56-57 | no step of a printer does; the job whose slot it gives up is the oldest one |
| PrintQueueSpec.StepKeepsInv | cw08/printers_server.c:51-60 | the full invariant is inductive: every enabled step of every process keeps shape, accounting, ring contents, partial copies and per-process histories |
| PrintQueueRuns.ContentsArePutMinusTaken | cw08/printers_server.c:56-57 | the jobs put are the jobs taken followed by what slots (head + k) mod N hold, and the slot at head is the first of these |
| PrintQueueRuns.ActionIsAllowed | cw08/users_client.c:35-39 | when tail advances there is room, and when head advances the printer holds the whole oldest job |
| PrintQueueRuns.StepRefinesQueue | cw08/users_client.c:35-42 | simulation: the advance of tail is an atomic enqueue, the advance of head an atomic dequeue of the oldest job, every other step leaves the queue as it is |
| PrintQueueRuns.RunsRefineQueue | cw08/printers_server.c:51-60 | every interleaving of any number of users and printers is a run of the atomic bounded queue and ends with that queue's contents in memory |
| PrintQueueRuns.JobsAreConserved | cw08/printers_server.c:51-62 | in every reachable state the jobs taken are a prefix of those put, the rest is in the ring, and each process sent or printed exactly its own jobs in order, up to the one it still holds |
| PrintQueueRuns.NothingIsLost | cw08/printers_server.c:51-62 | the same three facts about jobs follow from the invariant alone, in every state that satisfies it |
| PrintQueueRuns.StepKeepsTexts | cw08/users_client.c:33-43 | a user's texts, finished and current, gain exactly the generated text, and only in the step that generates it |
| PrintQueueRuns.UsersPutWhatIsGenerated | cw08/users_client.c:33-39 | in every run, what a user has put into the queue and the text it still has in hand are exactly the texts its generator gave it, in order |
| PrintQueueRuns.NoOverwrite | cw08/users_client.c:38 | a user that may write writes to none of the slots of untaken jobs |
| PrintQueueRuns.NoTornRead | cw08/printers_server.c:56 | a printer in the middle of its copy has the same part of the oldest job and no user is copying |
| PrintQueueRuns.StutterApproaches | cw08/users_client.c:31-43 | every step that is no action of the queue brings the processes together nearer to their next action |
| PrintQueueRuns.StutteringIsBounded | cw08/printers_server.c:50-70 | a run with m actions of the queue, from wherever it starts, has at most (m + processes) * (size + 7) steps |
| PrintQueueRuns.StuckExactlyWhen | cw08/printers_server.c:50-52 | no step is possible if and only if every process has left or waits on its counting semaphore at zero |
| PrintQueueRuns.UserWaitsExactlyWhen | cw08/users_client.c:35-36 | a user stands still if and only if it has left, every slot is full, promised or not handed back, or another process is at the ring |
| PrintQueueRuns.PrinterWaitsExactlyWhen | cw08/printers_server.c:51-52 | a printer stands still if and only if it has left, every job is promised or not announced, or another process is at the ring |
| PrintQueueRuns.RunningPairIsNeverStuck | cw08/users_client.c:31-43 | with one user and one printer still running some process can step |
| PrintQueueRuns.StuckQueue | cw08/printers_server.c:51 | in a stuck state the queue is full if a user still waits, empty if a printer still waits |
| PrintQueue.SharedQueue.constructor | cw08/printers_server.c:34-37 | the shared segment starts as the initial state and satisfies the invariant |
| PrintQueue.SharedQueue.UserStatement | cw08/users_client.c:31-43 | one statement of a user, on the shared fields, is exactly the enabled step of the state machine and keeps the invariant |
| PrintQueue.SharedQueue.PrinterStatement | cw08/printers_server.c:50-70 | one statement of a printer, on the shared fields, is exactly the enabled step of the state machine and keeps the invariant |
| SantaSpec.InitInv | cw10/main.c:10-14 | the initial state, nobody in the monitor and the counter at 0, satisfies the invariant |
| SantaSpec.SantaKeepsInv | cw10/main.c:47-66 | every statement of Santa keeps ownership, counter, round accounting and guards |
| SantaSpec.ReindeerKeepsInv | cw10/main.c:22-40 | every statement of every reindeer keeps ownership, counter, round accounting and guards |
| SantaSpec.FullCount | cw10/main.c:50-61 | a counter at N means that all N distinct reindeer have arrived, and are blocked if no reindeer holds the mutex |
| SantaSpec.StepKeepsInv | cw10/main.c:22-70 | the invariant is inductive over every interleaving, spurious wake-ups of Santa included |
| SantaRuns.AtMostOneInMonitor | cw10/main.c:29-39 | at most one thread is inside the monitor, and the mutex is free exactly when none is |
| SantaRuns.DeliversToWholeHerd | cw10/main.c:50-61 | while Santa delivers, every reindeer is blocked and has arrived exactly once more than there were deliveries |
| SantaRuns.ArrivalsAccountForCounter | cw10/main.c:30-61 | arrivals of all reindeer together are N times the deliveries plus the counter, and each one's exceed the deliveries by 0 or 1 |
| SantaRuns.EveryArrivalHasItsHoliday | cw10/main.c:24-30 | in every run a reindeer has left for its holidays, and come back from them, exactly once for each time it was counted in, up to the journey it is on |
| SantaRuns.DeliveriesAreMade | cw10/main.c:54-61 | Santa has gone through the delivery exactly as often as one is counted |
| SantaRuns.NoLostWakeUp | cw10/main.c:34-37 | if Santa sleeps unsignalled the counter is below N or a reindeer holds the mutex on its way to the signal |
| SantaRuns.SomebodyCanStep | cw10/main.c:29-52 | before the end some thread can step without relying on a spurious wake-up |
| SantaRuns.ReindeerWaitsExactlyWhen | cw10/main.c:22-39 | a reindeer stands still if and only if it is blocked in its wait or wants the mutex while another thread is in the monitor |
| SantaRuns.SantaWaitsExactlyWhen | cw10/main.c:48-52 | Santa stands still if and only if he sleeps unsignalled, is done, or wants the mutex while a reindeer is in the monitor |
| SantaRuns.StuckExactlyWhenDone | cw10/main.c:47-70 | nothing can happen if and only if Santa has left his loop; then all deliveries are made, and every reindeer has come T times and is blocked |
| SantaRuns.StepDescends | cw10/main.c:22-70 | every step lowers a measure over all positions, and a spurious wake-up raises it by at most 3 |
| SantaRuns.RunLengthIsBounded | cw10/main.c:22-70 | steps taken plus the measure left are at most T(10 + 7N) plus 4 for every spurious wake-up |
| SantaRuns.MaximalRunsEndWell | cw10/main.c:47-70 | every run is that short, and one that cannot continue has made exactly T deliveries to N blocked reindeer, N * T arrivals in all |
| SantaRuns.EveryRunCanFinish | cw10/main.c:47-70 | every run extends, without spurious wake-ups, to one in which Santa has left his loop |
| SantaStray.StrayWakeUpMisleadsSanta | cw10/main.c:39 | with one spurious wake-up of a reindeer there is a run of two reindeer in which Santa delivers while one of them is away and has never arrived |
| SantaStray.StepKeepsSound | cw10/main.c:23-66 | every step that is not a wake-up during collecting keeps what Santa's delivery relies on; one between reset and broadcast only anticipates the broadcast |
| SantaStray.TaintStays | cw10/main.c:30-39 | a reindeer woken while Santa collects stays out of step until he delivers |
| SantaStray.WholeUnlessStray | cw10/main.c:47-66 | in a run where no reindeer is woken spuriously while Santa collects, he only delivers to a herd wholly blocked and arrived once each |
| SantaStray.AlwaysWholeExactlyWhen | cw10/main.c:39 | in every run, spurious wake-ups of reindeer included, Santa only delivers to a whole herd if and only if no delivery comes after a wake-up that fell while he was collecting |
| SantaStray.WholeExactlyWhen | cw10/main.c:39 | in a run that has come to a delivery, if and only if no reindeer was woken spuriously while Santa was collecting |
| Santa.Monitor.constructor | cw10/main.c:10-14 | the global variables start as the initial state |
| Santa.Monitor.SantaStatement | cw10/main.c:47-66 | one statement of Santa on the global variables is exactly the enabled step and keeps the invariant |
| Santa.Monitor.WakeHerd | cw10/main.c:63 | the broadcast releases every blocked reindeer and touches no other |
| Santa.Monitor.ReindeerStatement | cw10/main.c:22-40 | one statement of a reindeer is exactly the enabled step and keeps the invariant |
| Santa.Monitor.WakeSantaSpuriously | cw10/main.c:50-52 | Santa's wait may return unsignalled, and the invariant holds on |
| RegistrySpec.SameNameExactlyWhen | cw11/server.c:77 | two name buffers count as the same name if and only if they agree on every character up to the end of the string or, without one, on all 64 |
| RegistrySpec.Find | cw11/server.c:76-77 | a scan of the table stops at the first slot that meets the query, or at the end if none does |
| RegistrySpec.MapIsUnique | cw11/server.c:73-93 | a table stands for at most one map |
| RegistrySpec.FindClient | cw11/server.c:138-145 | a name is registered if and only if the scan finds it, with the mapped socket |
| RegistrySpec.CountClients | cw11/server.c:20-30 | the used slots are as many as the clients of the map |
| RegistrySpec.RoomExactlyWhen | cw11/server.c:82-83 | a free slot is found if and only if there are fewer clients than slots |
| RegistrySpec.AddRefines | cw11/server.c:73-93 | registration inserts exactly when the name is absent and there is room; the result is -1 exactly for a taken name, and 0 on a full table too |
| RegistrySpec.RegisteredExactlyWhen | cw11/server.c:82-92 | an answer of 0 means that the client is registered if and only if there was room; on a full table nothing changes |
| RegistrySpec.DeleteRefines | cw11/server.c:95-111 | deletion removes exactly that name and closes exactly its socket |
| RegistrySpec.AddTouchesExactly | cw11/server.c:82-89 | a registration changes the first free slot and no other; the slot gets the 64 characters of the name and the socket, and keeps its flag |
| RegistrySpec.DeleteTouchesExactly | cw11/server.c:99-107 | a deletion empties the slot of that name and no other, and keeps that slot's flag |
| RegistrySpec.SweepRefines | cw11/server.c:323-334 | the sweep removes exactly the clients whose flag is still up |
| RegistrySpec.PingKeepsMap | cw11/server.c:305-316 | pinging leaves the map alone |
| RegistrySpec.AliveKeepsMap | cw11/server.c:181-191 | an answer leaves the map alone, whatever slot it hits |
| RegistrySpec.RecipientsAre | cw11/server.c:119-125 | a broadcast goes to a pair of name and socket if and only if a used slot holds it and it is not the sender |
| RegistrySpec.RecipientsInOrder | cw11/server.c:119-125 | a broadcast is sent in the order of the table |
| RegistrySpec.BroadcastReaches | cw11/server.c:113-127 | a broadcast reaches every registered client except the sender, each exactly once, and nobody else |
| Heartbeat.ApplyKeepsInv | cw11/server.c:73-191 | every event keeps names unique, sockets of used slots distinct from all earlier slots, stale ones included, and from unregistered connections |
| Heartbeat.RunsKeepInv | cw11/server.c:262-337 | unique names, distinct sockets and the freshness of unregistered connections hold in every run of server and heartbeat thread from the empty table |
| Heartbeat.RunsRefineMap | cw11/server.c:73-147 | across every sequence of events the table stands for the map the same events build, and lookups agree with it |
| Heartbeat.AnswerReachesItsSlot | cw11/server.c:184-189 | an answer on a registered client's socket lowers that client's flag and changes nothing else, despite stale sockets |
| Heartbeat.AnswerReachesExactlyWhen | cw11/server.c:184-189 | in any table an answer lowers the flag of exactly the first slot that carries the socket, in use or not, and changes nothing else |
| Heartbeat.PingRaisesExactly | cw11/server.c:306-315 | a ping raises the flags of exactly the slots in use and changes nothing else |
| Heartbeat.SweepEmptiesExactly | cw11/server.c:324-333 | a sweep empties exactly the used slots whose flag is up and lowers exactly their flags; name and socket stay behind |
| Heartbeat.SlotDuringRound | cw11/server.c:305-323 | between ping and sweep nothing but its own answers, or a request to stop it, changes a used slot |
| Heartbeat.SweepDecides | cw11/server.c:324-333 | after the sweep a client is found exactly if its flag was down |
| Heartbeat.SurvivesIffAnswered | cw11/server.c:305-334 | a client registered at a ping and not stopped survives the next sweep if and only if an answer came on its own socket, whatever else happened in between |
| Heartbeat.NewcomerSurvivesIff | cw11/server.c:82-89 | a client that registers after the ping survives the sweep if and only if its slot had its flag down or it answers unasked |
| Heartbeat.NewcomerAfterPingIsSafe | cw11/server.c:305-334 | a client that registers after a ping, in a slot whose flag was down before it, is found after the next sweep whether it answers or not |
| Heartbeat.NewcomerAfterSweepIsSafe | cw11/server.c:331-332 | a client that gets a slot just emptied by a sweep is found after the next sweep if there is no ping in between, whether it answers or not |
| Heartbeat.NobodyIsSweptBeforeAPing | cw11/server.c:61-71 | in every run from the empty table without a ping, a sweep does nothing |
| Heartbeat.UnpingedClientIsSwept | cw11/server.c:100-105 | a run in which a client is swept that was never pinged |
| Heartbeat.FullTableAnswersZero | cw11/server.c:82-92 | a run in which a client is answered 0 and is not in the table |
| Heartbeat.SecondNameIsSwept | cw11/server.c:323-334 | a connection registered under two names answers, keeps the first and loses the second |
| Heartbeat.HeldExactlyWhen | cw11/server.c:73-93 | the mutex is held after an event if and only if it was before or the event asks for a taken name |
| Heartbeat.HeldForGood | cw11/server.c:78 | with the mutex held every further run consists of accepted connections alone, and the table never changes |
| Heartbeat.LockedRunsAreRuns | cw11/server.c:73-93 | a run of the server with its mutex is a run of the server that always gives it back |
| Heartbeat.SecondUseOfNameLocks | cw11/server.c:76-80 | a run of two registrations under one name that ends with the mutex held, for every size of the table |
| Registry.ClientTable.constructor | cw11/server.c:61-71 | the table starts with every slot free, socket -1 and flag down |
| Registry.ClientTable.FindIndex | cw11/server.c:76-77 | the scanning loop returns the first slot that meets the query |
| Registry.ClientTable.FillSlot | cw11/server.c:84-86 | the slot gets the name and the socket and is in use, and keeps its flag |
| Registry.ClientTable.AddClient | cw11/server.c:73-93 | the array and the result become what registration makes of them, the map gains exactly the new client if there is room and the name is free, and the mutex is given back exactly if the name is free |
| Registry.ClientTable.HandleClientDelete | cw11/server.c:95-111 | the array loses exactly that client; the descriptor to close is the one that was mapped |
| Registry.ClientTable.HandleToAllMessage | cw11/server.c:113-127 | the pairs sent to are all registered clients but the sender, each once |
| Registry.ClientTable.HandleToOneMessage | cw11/server.c:137-145 | one message, to precisely the mapped socket, or none if the name is unknown |
| Registry.ClientTable.HandleGotAliveMessage | cw11/server.c:181-191 | the first slot carrying the descriptor, in use or not, has its flag lowered |
| Registry.ClientTable.PingClients | cw11/server.c:305-317 | the flags of exactly the used slots are raised, nothing else changes, and exactly the sockets of used slots are pinged, one ping for each slot |
| Registry.ClientTable.SweepClients | cw11/server.c:323-335 | exactly the flagged used slots are emptied, their name and socket staying behind, exactly their sockets closed, once for each slot, and the map keeps the others |
| Codec.ValueOfTruncate | cw11/socket_utils.c:73 | the cast of the timestamp to 32 bits is the remainder modulo 2^32 |
| Codec.TruncateOfValue | cw11/socket_utils.c:65-93 | words and 32-bit numbers correspond one to one |
| Codec.BytesOfValue | cw11/socket_utils.c:65 | the bytes of a word are the digits of its value to the base 256, most significant first |
| Codec.WireFormat | cw11/socket_utils.c:60-75 | where in the buffer every byte of a message stands: the name at 0, the type at 64 in network order, the text at 68, the timestamp's 32 bits at 580 or 584 depending on the host, and 0 in the other half of its field |
| Codec.WordCrosses | cw11/socket_utils.c:65-84 | a 32-bit field travels most significant byte first and arrives unchanged between any two byte orders |
| Codec.StampCrosses | cw11/socket_utils.c:73-93 | the 64-bit timestamp field arrives modulo 2^32 between like hosts and as 0 between unlike ones |
| Codec.Fields | cw11/socket_utils.c:77-94 | reading at the advancing offsets finds each field where it was written |
| Codec.Memcpy | cw11/socket_utils.c:62 | exactly the addressed bytes of the destination become the source |
| Codec.SerializeMessage | cw11/socket_utils.c:60-75 | the buffer becomes the encoding; every write is inside its 1024 bytes and the bytes after the encoding keep their values |
| Codec.DeserializeMessage | cw11/socket_utils.c:77-94 | the message read from a buffer is its decoding, for every content of the buffer |
| Codec.RoundTrip | cw11/socket_utils.c:60-94 | between hosts of like byte order a message comes back with its timestamp modulo 2^32, hence unchanged if and only if that is in [0, 2^32) |
| Codec.MixedOrdersLoseTimestamp | cw11/socket_utils.c:73-93 | between hosts of unlike byte order everything survives but the timestamp, which becomes 0 |
| ChatSpec.Pick | cw07/server.c:109 | mq_receive takes the oldest message among those of the highest priority |
| ChatSpec.InitInv | cw07/server.c:88-102 | the empty server with all clients still to start satisfies the invariant |
| ChatSpec.PendingWithout | cw07/client.c:125-126 | taking a message that is not one of p's texts out of the queue leaves p's pending texts in order |
| ChatSpec.TextsAreOldest | cw07/client.c:53 | a text or registration is received only when it is the oldest message and no exit waits |
| ChatRuns.ClientStepKeepsInv | cw07/client.c:91-126 | registering, reading the id, sending, leaving and listening keep the invariant |
| ChatRuns.ReceiveInitKeepsInv | cw07/server.c:14-29 | handling a registration keeps the invariant |
| ChatRuns.ReceiveTextKeepsInv | cw07/server.c:31-34 | taking a text from the queue and logging it keeps the invariant |
| ChatRuns.ReceiveExitKeepsInv | cw07/server.c:46-53 | handling an exit keeps the invariant |
| ChatRuns.DeliverKeepsWindows | cw07/server.c:34-43 | each single send of a broadcast extends the receiver's window of the log by the text broadcast, and nobody else's |
| ChatRuns.StepKeepsInv | cw07/server.c:102-117 | the invariant is inductive over every interleaving of clients and server |
| ChatRuns.HandlersAreAtomic | cw07/server.c:55-71 | although every send of a broadcast is a step and clients run in between, receiving a message fixes what the table will be when the handler ends, namely what the handler run in one go makes of it, and no other step changes that |
| ChatRuns.IdIsOwnSlot | cw07/client.c:99-106 | the first message a client reads is its id, and its queue is in the slot of that number |
| ChatRuns.QueueIsOneWindow | cw07/server.c:31-53 | a client's queue has been sent its id, then one contiguous window of the log from registration to exit, complete whenever the server is idle |
| ChatRuns.ClientsAgree | cw07/server.c:31-44 | the stretch of the log that two clients have both been sent stands in the queue of each at known positions, uninterrupted and message for message the same |
| ChatRuns.StepCounts | cw07/server.c:24 | the counter goes up by one with each registration handled, changes with no other step, and the table keeps its size |
| ChatRuns.CounterIsRegistrations | cw07/server.c:17-24 | in every run the counter is the number of registrations ever handled, however many clients have left |
| ChatRuns.RegistrationFitsExactlyWhen | cw07/server.c:17-18 | the next registration stays inside the table if and only if fewer clients than slots have registered |
| ChatRuns.EmptySlotIsNotReused | cw07/server.c:17-18 | a run after which the only slot is empty and the next registration is out of bounds |
| ChatRuns.ReceivedInSendingOrder | cw07/client.c:50-56 | what a client has been sent of another's texts is one uninterrupted stretch of what that one sent |
| ChatRuns.LogFollowsSenders | cw07/server.c:31-34 | a logged text comes from the client registered under its id, after that registration; the log and then the waiting texts are exactly what the client sent, in order |
| ChatRuns.ExitsGoFirst | cw07/client.c:125-126 | an exit is handled if and only if one waits; otherwise the oldest message is |
| ChatRuns.ExitOvertakesOwnTexts | cw07/client.c:125-126 | an exit handled before its sender's own texts loses and reorders none of them and closes the sender's own slot |
| ChatRuns.LeavingOvertakesAll | cw07/client.c:125-126 | a client that leaves while no other exit waits has its exit handled before everything sent earlier |
| ChatTexts.ClientsSendWhatIsTyped | cw07/client.c:30-58 | in every run a client has sent exactly what was typed at it, in order, and has read one message for its id and one for each turn of its listener |
| ChatTexts.ScreensShowWhatWasTyped | cw07/client.c:17-28 | what a client has been sent of another's texts is one uninterrupted stretch of what was typed there |
| ChatTexts.QueuesAreBounded | cw07/server.c:92-95 | in every run no queue holds more than its capacity, and no client has read more than it was sent |
| ChatTexts.ServerWaitsExactlyWhen | cw07/server.c:109 | the server stands still if and only if it has nothing to do, the next registration does not fit, or the queue whose turn it is, of a client that has not left, is full |
| ChatTexts.ClientWaitsExactlyWhen | cw07/client.c:94-126 | a client stands still if and only if it has left, the server's queue is full, or it is not in the table yet; its listener, if it has read everything |
| Chat.DeliverFromReaches | cw07/server.c:34-43 | a broadcast over the slots from i on appends to every queue one copy for each slot that holds it, and changes nothing else |
| Chat.HeldOnce | cw07/server.c:34-43 | where no queue is in two slots, that is one copy for a queue in the table and none for any other |
| Chat.ChatServer.constructor | cw07/server.c:88-90 | the table starts with every slot at -1 and no client |
| Chat.ChatServer.HandleInitMessage | cw07/server.c:14-29 | if the counter is inside the table the next slot gets the queue, its client the id, and nothing else changes, and a failed open leaves -1 and the counter as it was; the result is false exactly if the counter is outside |
| Chat.ChatServer.HandleTextMessage | cw07/server.c:31-44 | every queue gets the message once for each slot that holds it |
| Chat.ChatServer.HandleClientExitMessage | cw07/server.c:46-53 | the named slot becomes -1 if it exists; an id outside the table changes nothing |
| Chat.ChatServer.DispatchMessageType | cw07/server.c:55-71 | the table becomes what the handler for the message's type makes of it, a failed open and a registration without a slot included; a message of any other type changes nothing |
| LifeSpec.CellIndex | cw09/grid.c:48-54 | row-major indices of cells on the grid are in range and give the cell back |
| LifeSpec.NextCellIsLocal | cw09/grid.c:35-66 | the next value of a cell depends on the cells at distance at most 1 only |
| LifeSpec.LightCone | cw09/grid.c:35-75 | grids that agree within distance k of a cell agree on it after k generations, at the borders as well |
| LifeSpec.SliceStartIs | cw09/life.c:84 | a slice starts at the last whole cell not beyond its fraction of the grid |
| LifeSpec.SliceSizes | cw09/life.c:84-90 | consecutive slices meet, cover the grid, are not empty and differ in size by at most one |
| LifeSpec.SliceOf | cw09/life.c:80-90 | every cell lies in exactly one slice |
| LifeRuns.RoundFills | cw09/life.c:47-51 | a thread's single writes, run on their own, put into its slice what the rule makes of the buffer read, leave all other cells, and its pointers end exchanged |
| LifeRuns.InitInv | cw09/life.c:74-90 | the threads as started, with any second buffer, satisfy the invariant |
| LifeRuns.RoundIsComplete | cw09/life.c:47 | once every thread has finished, the buffer written is the whole next generation |
| LifeRuns.WriteIsRight | cw09/grid.c:79-83 | a single cell write leaves the source buffer alone and stores the right value |
| LifeRuns.StepKeepsInv | cw09/life.c:36-52 | signals, single cell writes and pointer exchanges keep the invariant under every schedule |
| LifeRuns.ActiveExactlyWhen | cw09/life.c:47-51 | a thread at work can always go on, in exactly one way, and a thread that is not cannot |
| LifeRuns.CompleteRounds | cw09/life.c:98-110 | after k complete rounds the first buffer holds generation 2 * floor(k/2), and the second, for k >= 1, generation 2 * ceil(k/2) - 1, for any number of threads and schedule |
| LifeRuns.RoundEqualsSequentialUpdate | cw09/grid.c:68-75 | a complete round wrote what update_grid would have written |
| LifeRuns.MidRound | cw09/life.c:47-51 | inside a round every cell already written is final |
| Life.CountNeighbours | cw09/grid.c:37-52 | the nested loops count exactly the live neighbours on the grid |
| Life.IsAlive | cw09/grid.c:35-66 | the result is the rule of Life stated with the set of live neighbours |
| Life.UpdateGrid | cw09/grid.c:68-75 | the destination becomes the next generation of the source |
| Life.UpdateSubgrid | cw09/grid.c:77-83 | exactly the cells of the slice become the next generation, the others keep their values |
| Life.Worker.constructor | cw09/life.c:81-90 | a thread gets the bounds of its slice |
| Life.Worker.Round | cw09/life.c:47-51 | one round writes the thread's slice of the next generation and exchanges its two pointers, and so ends in the state that as many single writes and one exchange of the state machine lead to |
| LifeLaws.BornExactlyWhen | cw09/grid.c:60-65 | a dead cell is born if and only if the live cells among the eight around it are some three |
| LifeLaws.SurvivesExactlyWhen | cw09/grid.c:54-59 | a live cell stays if and only if they are some two or some three |
| LifeLaws.NeighboursAreSum | cw09/grid.c:37-52 | the number of live neighbours is the sum over the eight cells around, those off the grid counting nothing |
| LifeLaws.BlockStaysForEver | cw09/grid.c:68-75 | a lone 2 x 2 block is the same after any number of generations, in a corner too |
| LifeLaws.BlinkerHasPeriodTwo | cw09/grid.c:68-75 | a lone row of three is itself after every even number of generations and a column after every odd one |
| LifeLaws.NothingBeyond | cw09/grid.c:45-47 | no cell beyond the border is alive |
| LifeLaws.PatternsExist | cw09/grid.c:30-33 | a grid of 2 x 2 cells holds the block, one of 3 x 3 the blinker |
| Reverse.ReversedTwice | cw03/zad1/reverse.c:9-11 | reversing twice gives the original |
| Reverse.InFile.SeekEnd | cw03/zad1/reverse.c:50-60 | a seek before the start fails and leaves the position, any other moves it there |
| Reverse.InFile.SeekCurrent | cw03/zad1/reverse.c:30 | a seek relative to the position fails and stays if it would go before the start, and else moves there |
| Reverse.InFile.GetChar | cw03/zad1/reverse.c:20 | the byte at the position, or -1 at the end |
| Reverse.InFile.Read | cw03/zad1/reverse.c:63 | as many bytes as fit and remain, from the position on |
| Reverse.ReverseFileByBytes | cw03/zad1/reverse.c:12-35 | the output gains exactly the reverse of the input; the result is -1 exactly for the empty file |
| Reverse.ReverseText | cw03/zad1/reverse.c:37-43 | the first bytes of the buffer are reversed in place, the rest is untouched |
| Reverse.BackwardOffset | cw03/zad1/reverse.c:77 | the offset computed in size_t is the intended negative number |
| Reverse.CursorStart | cw03/zad1/reverse.c:55-60 | the first seek succeeds and establishes the cursor invariant |
| Reverse.CursorStep | cw03/zad1/reverse.c:62-77 | a pass reads up to exactly where the remaining bytes end; the seek lands one block before what is left, or fails because nothing is; a pass that reads nothing moves the cursor back |
| Reverse.ReverseBlock | cw03/zad1/reverse.c:63-77 | one pass appends the reverse of what it takes off the end |
| Reverse.ReverseFileByBlocks | cw03/zad1/reverse.c:49-81 | for every length and block size the loop ends and the output gains exactly the reverse of the input |
| Reverse.RunProgram | cw03/zad1/reverse.c:84-116 | both variants, and every block size, give the same output on every file |
| Reverse.RunTwice | cw03/zad1/reverse.c:84-116 | any variant followed by any variant restores the file |
| Integral.Integrate | cw06/zad2/calculator.c:11-22 | the result is the left Riemann sum |
| Integral.CalculatePart | cw06/zad1/main.c:10-18 | the result is the left Riemann sum from a given start with a given step |
| Integral.PartOfProcess | cw06/zad1/main.c:27-40 | a process computes the Riemann sum over its own stretch of the common grid |
| Integral.SumOverProcesses | cw06/zad1/main.c:115-124 | the results of all processes add up to the undivided sum, for every number of processes |
| Integral.DistributedIntegral | cw06/zad1/main.c:71-124 | arguments are refused exactly when the number of processes or dx is not positive or there are fewer steps than processes; otherwise the result is the undivided sum |
| Integral.StepsBeforeNext | cw06/zad1/main.c:21-33 | the stretches follow each other without gap or overlap and end at the last step |
| Integral.RangeCovered | cw06/zad1/main.c:90 | the steps reach the end of the range or less than one step beyond, and meet it if and only if 1/dx is whole |
| Integral.ProgramsAgree | cw06/zad1/main.c:90-124 | with dx = 1/n the two programs compute the same sum |
| Integral.FIs | cw06/zad2/calculator.c:18 | the integrand is the one solution y of y(1 + x^2) = 4 |
| Integral.FFalls | cw06/zad2/calculator.c:18 | the integrand falls to the right of 0 |
| Integral.Refine | cw06/zad2/calculator.c:16-20 | for every falling integrand the samples of a k times finer grid lie between k times the right and k times the left samples of the coarse one |
| Integral.RefinementBracket | cw06/zad2/calculator.c:11-22 | to the right of 0 a k times finer grid lowers the result, by at most the drop of the integrand times one coarse step |
| Integral.UnitBracket | cw06/zad2/calculator.c:11-22 | on [0, 1]: L(n) - 2/n <= L(kn) <= L(n) |
| Integral.FIsSteady | cw06/zad2/calculator.c:18 | the integrand changes at most 4 times as fast as its argument |
| Integral.RefinementMovesLittle | cw06/zad2/calculator.c:11-22 | on every range a k times finer grid moves the result by at most 4(b - a)^2 / n |

## Left out

Where a contract says less, or a precondition more, than the whole program would:

- Registry.ClientTable.HandleToAllMessage: sends succeed; the server only logs one that fails.
- Registry.ClientTable.HandleToOneMessage: sends succeed, and the receiver's name is given, not parsed out of the text.
- Heartbeat.SurvivesIffAnswered: assumes that a connection asks for registration once and that the kernel hands out only closed descriptors; the server does not check the first, and without it the property is false (`SecondNameIsSwept`).
- Chat.ChatServer.HandleInitMessage: what the write past the array does (cw07/server.c:18) is undefined; the method stops there and says so, and what follows is not modelled; the send of the id succeeds, where cw07/server.c:26 only reports a failure.
- Chat.ChatServer.HandleTextMessage: every send succeeds, where cw07/server.c:37 reports a queue that refuses and goes on to the next.
- Chat.ChatServer.DispatchMessageType: as for the two handlers it calls.
- ChatRuns.StepKeepsInv: takes sends and mq_open to succeed, lets a send wait for room, and has no step for a registration that falls outside the table; that a client which stopped listening can block the server for good is not addressed, safety alone is.
- SantaRuns.MaximalRunsEndWell: spurious wake-ups of a reindeer are excluded, because its wait (cw10/main.c:39) is not in a loop and the property is false with them (`StrayWakeUpMisleadsSanta`); those of Santa are included. `SantaStray` has the runs with both.
- LifeRuns.CompleteRounds: a signal is sent only when every thread has finished, for which cw09/life.c:109 relies on a sleep; signals are not merged or lost.
- Codec.RoundTrip: takes time_t to be 64 bits wide.
- Reverse.ReverseFileByBlocks: block sizes up to 2^62, so that the size_t expression of cw03/zad1/reverse.c:77 does not wrap; read and write errors do not occur.
- Integral.Integrate: exact reals in place of doubles, and at least one interval, which its caller checks.
- Integral.DistributedIntegral: the number of steps is unbounded, where the C code casts it to long.

Choices of form:

- What a process keeps on its own stack (its buffer, its program counter) is a value in a sequence, one entry a process; the shared fields are updated in place.
- A handler of cw11 holds the table's mutex throughout, so it is one call and the two threads interleave call by call; the close that follows deletion is part of the call.
- The lookups of cw11, written out in each handler, are one scan with a query.
- The printing loop of cw08 is one step, and so is the generation of random text, whose content is arbitrary.

Not modelled at all:

- sockets, epoll, partial reads and the close on an epoll error (cw11/server.c:392-396), connection set-up, shared-memory mapping, pipes, fork and exec
- signals and shutdown: keep_running, interrupted semaphore waits, killing children, the clean-up functions of cw07, cw08 and cw11
- what asynchronous cancellation does after Santa's last delivery, and the order in which cw10 stores thread ids
- parsing of commands with strtok, and the list of clients built with strcat, in cw11
- drawing, printing, logging, time measurement, sleeps
- cw01, cw02, cw04, cw05, the other parts of cw03, and the client of cw06/zad2: short loops or system-call demonstrations
