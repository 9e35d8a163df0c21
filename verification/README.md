# bibliotecassop in Dafny

A model of the lending-library server of *bibliotecassop* and of its
requester's command-line handling. Requesters talk to the server through
named pipes with fixed-size packets: a SIGNAL packet (a code and a short
text), a BOOK packet (a copy record carrying a request kind) or an ERR packet.

- **Registry** (`registry.dfy`). The server's client list (`struct client_list`).
  It is a realloc-grown array of `{pipe, clientPID, pipeNom}`. `storeClient`
  appends, `removeClient` swaps the entry to the end and shrinks (never below
  one entry), and `searchClient` is a linear lookup. The class `ClientList`
  keeps the array as a sequence that its methods reassign. The pure functions
  `FirstPid`, `Lookup` and `Removed` describe what they compute.
- **Session** (`session.dfy`). The handshake. `connectClient` opens the
  client's channel, registers the client and writes `SUCCEED_COM`.
  `disconnectClient` closes the channel and unregisters the client.
  `interpretSignal` dispatches on the signal code. The guards at lines 282 and
  354 use `&&` where `||` was meant, and they are modelled as written.
- **Inventory** (`inventory.dfy`). `manejarLibros` over the flat array of
  copy records. Borrow (SOLICITAR), renew (RENOVAR), return (DEVOLVER) and
  search (BUSCAR) each scan the array linearly, update at most one record in
  place, and write one reply to the requester. `HandleBook` works on the
  `array<Copy>` and is proved equal to the function `Handle`. The lemmas
  about the four requests are stated on `Handle`'s parts.
- **RequestQueue** (`request_queue.dfy`). `buffer.c`: `init`, `queue`,
  `getNext`, `dequeue` and `destroy`. The two semaphores are counters on the
  buffer, and a blocking wait is a precondition.
- **ServerArgs** (`server_args.dfy`). The server's `manejarArgumentos`, with
  `-p PIPE` and `-f DATABASE`.
- **ClientArgs** (`client_args.dfy`). The requester's `manejarArgumentos` and
  `cortarArgumentos`, with `-pPIPE` and optionally `-iFILE`.
- **Packets** and **Common** (`packets.dfy`, `common.dfy`). Packet and
  record types, `generateReponse`, the shared constants, and `Env`.

Calls into the operating system appear only through their outcomes. `Env`
supplies the descriptor `open` returns, whether `close` and `write`
succeed, and today's date as a day number. A week is 7 days.

Some constants are used by the code but not defined in the headers shown:
- `SOLICITUD`, `RENOVACION`, `DEVOLUCION` and `ERROR` get the values 3, 4, 5 and -3.
- `ERROR_SOLICITUD` gets 10.
- `BUFFER_SIZE` gets 10.

Behaviour of the code worth knowing:
- BUSCAR in `manejarLibros` (src/server.c) sends back only the first record of the title, one BOOK packet.
- `queue` in src/buffer.c writes at `current_item`, the slot `getNext` reads, so the buffer does not hand packets out in arrival order; see Findings.
- `storeClient`, `removeClient` and `searchClient` in src/server.c take no lock on the client list.
- `connectClient` in src/server.c does not check for a PID already registered: a second connect from the same PID adds a second entry, and `searchClient` then finds the first one.
- RENOVAR in src/server.c treats a copy as late only when its old due date plus 7 days is already past: a renewal up to 7 days after the due date counts as on time, gets a due date of the old one + 7 days, and carries no "(DEVOLUCION TARDE) " prefix.

## Model

| member | source | states |
|---|---|---|
| Packets.CodeWord | src/paquet.h:35-50 | the signal-code word read from any body: for a BOOK body it is the request kind, because the union overlays the two |
| Packets.GenerateResponse | src/server.c:400-413 | the reply is a SIGNAL for `dest` with the given code; its text is the given buffer, or empty when none is given |
| Registry.CreateClient | src/server.c:417-424 | the record holds the given descriptor, PID and channel name |
| Registry.FirstPid | src/server.c:508-510 | the index found holds the PID and no earlier entry does; none is found exactly when the PID is not registered |
| Registry.Lookup | src/server.c:506-513 | gives the pipe of the first entry with the PID, or ERROR_PID_NOT_EXIST (-1) when no entry has it |
| Registry.Removed | src/server.c:454-484 | the removal succeeds exactly when the PID is registered |
| Registry.RemovedShape | src/server.c:457-484 | with two or more entries, some entry of the PID takes the last entry's place and the last position is dropped |
| Registry.RemovedDropsOneEntry | src/server.c:460-484 | with two or more entries, one entry of the PID goes, every other entry stays (as a multiset), and the count drops by one |
| Registry.RemovedKeepsSingleEntry | src/server.c:483-484 | a list of one registered entry stays unchanged, and the client is still registered |
| Registry.RemovedUnregisters | src/server.c:454-504 | with unique PIDs and two or more entries, the PID is no longer registered and every other client is kept |
| Registry.ClientList.constructor | src/server.c:56-59 | the list starts empty |
| Registry.ClientList.StoreClient | src/server.c:426-452 | the client is appended at index old nClients; the status is SUCCESS_GENERIC |
| Registry.ClientList.RemoveClient | src/server.c:454-504 | an unknown PID gives ERROR_PID_NOT_EXIST and leaves the list unchanged; otherwise the list becomes `Removed` and the status is SUCCESS_GENERIC |
| Registry.ClientList.SearchClient | src/server.c:506-513 | changes nothing and returns `Lookup`; for a registered PID, the pipe of an entry with that PID |
| Session.InterpretSignal | src/server.c:384-398 | any code other than START_COM and STOP_COM gives FAILURE_GENERIC with no effect; START_COM gives what `Connect` gives and STOP_COM what `Disconnect` gives |
| Session.DispatchedSignalsPassGuards | src/server.c:282-354 | a START_COM packet always passes `connectClient`'s guard and a STOP_COM packet `disconnectClient`'s |
| Session.ConnectGuardAdmitsAnySignal | src/server.c:282 | the guard as written lets through every SIGNAL packet, whatever its code |
| Session.ConnectRegisters | src/server.c:306-345 | a successful connect appends the client at index old nClients, with the opened pipe and the channel name from the signal, writes SUCCEED_COM to that pipe, and, for a PID not registered before, `Lookup` then finds the new pipe |
| Session.ConnectWriteFailureUnwinds | src/server.c:326-336 | when the confirmation write fails on a non-empty list, the entry is removed again, the pipe is closed and ERROR_PIPE_SER_CTE is returned |
| Session.ConnectWriteFailureOnEmptyListKeepsClient | src/server.c:326-336 | when the list was empty, the failed confirmation leaves the new client registered |
| Session.ConnectEarlyFailureChangesNothing | src/server.c:282-293 | a rejected packet or a failed open changes nothing, writes nothing and does not succeed |
| Session.ConnectKeepsPipesNonNegative | src/server.c:288-336 | if every registered descriptor is non-negative before a connect, it still is after, also when a failed write unwinds the registration |
| Session.DisconnectUnknownClient | src/server.c:360-368 | an unregistered PID makes the server close -1, which fails; the status is ERROR_PIPE_SER_CTE and the list is unchanged |
| Session.DisconnectRemovesClient | src/server.c:360-381 | a registered client whose pipe closes is removed as `Removed` says, and the status is SUCCESS_GENERIC |
| Session.DisconnectUnregisters | src/server.c:360-381 | with unique PIDs and another client present, the client is unregistered, the list shrinks by one and every other client stays |
| Session.DisconnectLastClientStaysRegistered | src/server.c:371-381 | the last client's disconnect succeeds but leaves its entry in the list |
| Session.ConnectClient | src/server.c:277-346 | the list, the status, the write and the close are those of `Connect` |
| Session.DisconnectClient | src/server.c:348-382 | the list, the status and the close are those of `Disconnect` |
| Session.InterpretSignalOn | src/server.c:384-398 | the list, the status, the write and the close are those of `InterpretSignal` |
| Inventory.FirstIndex | src/server.c:575-580 | the index found meets the scan's condition and no earlier record does; none is found exactly when no record meets it |
| Inventory.BorrowRefusedIffNoneAvailable | src/server.c:547-634 | a borrow is refused with ERROR and ERROR_SOLICITUD, the inventory unchanged, exactly when no record of the title is available ('D') |
| Inventory.BorrowLendsFirstAvailable | src/server.c:575-646 | a borrow changes only the first available copy of the title: it becomes 'P', due today + 7 days; the reply is SOLICITUD with that date and " (Ejemplar #n)" |
| Inventory.RenewOnTime | src/server.c:687-754 | renewing a lent copy when its old due date + 7 days is not yet past sets the due date to the old one + 7 days; the copy stays 'P' and the reply is RENOVACION with the new date |
| Inventory.RenewLate | src/server.c:724-754 | when old due date + 7 days is already past, the new due date is today + 7 days and the reply is prefixed "(DEVOLUCION TARDE) " |
| Inventory.RenewReturnNeedLentCopy | src/server.c:687-870 | renewing or returning a copy number that is not lent under that title is refused and changes nothing |
| Inventory.ReturnMakesAvailable | src/server.c:822-881 | a return makes the requested lent copy 'D', dated today, changes nothing else, and answers DEVOLUCION with that date |
| Inventory.SearchIsReadOnly | src/server.c:888-930 | a search changes nothing; it answers the first record of the title as a BOOK packet, or an ERR packet with ERROR_SOLICITUD when the title is missing |
| Inventory.RequestsKeepUniqueNumbers | src/server.c:539-930 | no request changes a title or a copy number, so unique copy numbers per title stay unique |
| Inventory.BorrowReturnRoundTrip | src/server.c:575-855 | borrowing and then returning the copy lent restores it to 'D', dated on the return day, changes nothing else, and lets the next borrow succeed |
| Inventory.LateReplyIsFlagged | src/server.c:726-751 | a renewal reply starts with '(' exactly when the renewal was late |
| Inventory.OneReplyToTheRequester | src/server.c:525-538 | an unregistered requester gets no reply and ERROR_COMUNICACION; a registered one with a known request kind gets exactly one reply, on its own pipe |
| Inventory.TitleFound | src/server.c:547-556 | the flag is set exactly when some record has the title's isbn and name |
| Inventory.FindFirst | src/server.c:575-622 | the scan stops at the index `FirstIndex` gives, and changes nothing |
| Inventory.HandleBook | src/server.c:517-942 | the inventory array afterwards, the reply written and the status are those of `Handle` |
| RequestQueue.Buffer.constructor | src/buffer.h:23-27 | a buffer over the given packet array, with zero counters |
| RequestQueue.Init | src/buffer.c:10-26 | a null buffer fails; otherwise the index is 0, no slot is filled, BUFFER_SIZE slots are free, and the slot invariant holds |
| RequestQueue.Queue | src/buffer.c:28-51 | a null buffer fails; otherwise one free slot is consumed, the packet is written at the current index, one filled slot is added, and the index is unchanged |
| RequestQueue.GetNext | src/buffer.c:66-74 | a null buffer gives none; otherwise one filled slot is consumed and the packet at the current index is handed out, with the array and the index unchanged |
| RequestQueue.Dequeue | src/buffer.c:76-90 | a null buffer fails; otherwise one slot is freed and the index moves to (index + 1) mod BUFFER_SIZE, so it stays inside the array |
| RequestQueue.Destroy | src/buffer.c:53-64 | fails exactly for a null buffer |
| RequestQueue.QueueThenServe | src/buffer.c:28-90 | a queue followed by getNext hands out the packet just queued; after the dequeue the counters are back, so filled + free is BUFFER_SIZE whenever nothing is handed out |
| RequestQueue.QueueTwiceLosesFirst | src/buffer.c:41-73 | two queues before a dequeue: getNext returns the second packet, the next getNext returns a slot nobody wrote, and the first packet is never handed out |
| RequestQueue.RingBuffer.constructor | src/buffer.c:10-26 | corrected init: an empty buffer, BUFFER_SIZE free slots, the slot invariant holds |
| RequestQueue.RingBuffer.Queue | src/buffer.c:28-51 | corrected queue: the packet joins the end of the contents |
| RequestQueue.RingBuffer.GetNext | src/buffer.c:66-74 | corrected getNext: hands out the oldest packet |
| RequestQueue.RingBuffer.Dequeue | src/buffer.c:76-90 | corrected dequeue: the oldest packet leaves the contents |
| RequestQueue.QueueTwiceServesBoth | src/buffer.c:41-73 | with the corrected buffer, two queued packets are handed out in the order they were queued |
| ClientArgs.FlagValue | src/client.c:205-209 | the argument is its two-character flag followed by the value |
| ClientArgs.ClientArguments | src/client.c:115-203 | a refusal is always ARG_INCORRECTOS; a file is used exactly when a file name is given |
| ClientArgs.WrongCountRefused | src/client.c:197-199 | an argc other than 2 or 3 is refused |
| ClientArgs.SinglePipeArgument | src/client.c:124-135 | with argc 2 the argument is accepted exactly when it starts with "-p"; the pipe name is the rest and no file is used |
| ClientArgs.TwoArguments | src/client.c:137-202 | with argc 3: an argument not starting with '-' is refused, as is a repeated flag; on success the -i value is the file name, the -p value the pipe name, and a file is used |
| ClientArgs.HandleArguments | src/client.c:115-203 | the loop-based validator gives exactly `ClientArguments` |
| ClientArgs.ConsumeFlags | src/client.c:145-193 | the flag loop over two dashed arguments gives exactly `ClientArguments` |
| ClientArgs.CString | src/client.c:129 | what `strcpy` reads from a buffer: the characters before its first NUL, or the whole buffer when there is none |
| ClientArgs.CStringOfTerminated | src/client.c:129 | a value followed by a NUL reads back as itself, whatever follows |
| ClientArgs.StaleTailShowsThrough | src/client.c:205-209 | a value not followed by a NUL reads back longer than itself |
| ClientArgs.CutArgument | src/client.c:205-209 | the buffer starts with the value after the flag and the rest is what was there before; nothing terminates the value |
| ClientArgs.UnterminatedCutReadsLonger | src/client.c:205-209 | after the cut, an old buffer with no NUL right after the value does not read back as the value |
| ClientArgs.CutIntoUsedBuffer | src/client.c:128-129 | "-pab" cut into a buffer holding "zzzz" reads back as "abzz" |
| ClientArgs.CutArgumentTerminated | src/client.c:205-209 | the corrected cut: the buffer reads back as exactly the value after the flag |
| ServerArgs.TakePair | src/server.c:183-239 | one flag/value pair succeeds only for the letters p and f; a refusal is ERROR_ARG_NOVAL |
| ServerArgs.ServerArguments | src/server.c:164-244 | a refusal is always ERROR_ARG_NOVAL |
| ServerArgs.WrongCountRefused | src/server.c:175-176 | an argc other than 5 is refused |
| ServerArgs.BothPairsAccepted | src/server.c:180-243 | `-p PIPE -f FILE` in either order sets both names from the argument after each flag |
| ServerArgs.BadPairsRefused | src/server.c:186-239 | a repeated flag letter, or a letter other than p and f, is refused |
| ServerArgs.PlainArgumentStopsReading | src/server.c:180 | reading stops at the first flag position without '-': a plain argv[1] sets nothing, and a plain argv[3] leaves only the first pair set |
| ServerArgs.HandleArguments | src/server.c:164-244 | the loop that moves argv on by two gives exactly `ServerArguments` |

## Left out

- Pipe and file I/O: `mkfifo`, `open`, `read`, `write`, `close`, `unlink`. The server's main loop and `startCommunication` (src/server.c:36-150, 248-275) and the requester's `main`, `abrirArchivo` and `cerrarArchivo` are not modelled; the core sees only the outcomes in `Env`.
- Printing and diagnostics.
- Allocation failure. A failed `realloc` in `storeClient`/`removeClient` (ERROR_MEMORY) is not modelled. After such a failure the C code has already changed nClients.
- Loading the database with `fscanf` (src/server.c:63-88).
- Calendar and text formatting of dates. Dates are whole day numbers. `DateText` is a decimal stand-in for `dd-mm-YYYY`. Parsing a stored date back with `strptime` in a renewal is replaced by reading the stored day number.
- String bounds (TAM_STRING = 20). Strings are unbounded, so the model does not capture overflows of the 20-byte buffers. Examples are the borrow reply (a 10-character date plus " (Ejemplar #n)") and the late renewal reply, whose texts exceed 20 bytes; also long names copied by `strcpy`.
- Buffers the code leaves unset are read as empty text: the confirmation signal and ERROR replies. Bytes of a BOOK or ERR body read as signal text are also taken as empty.
- Semaphores: blocking, thread interaction, and failures of `sem_init`, `sem_wait`, `sem_post` and `sem_destroy`. The two process-wide semaphores are modelled as counters on the buffer. `RequestQueue.GetNext` returns the packet by value; in the C code it returns a pointer into the slot, so a later `queue` also changes what that pointer shows.
- `src/buffer.h` declares `n_items` and `getLast`; the model follows `src/buffer.c` (`current_item`, `getNext`).
- ClientArgs.HandleArguments: the names it returns are the values the corrected cut yields. With `cortarArgumentos` as written, they continue into whatever the uninitialised buffer held; see Findings.
- The requester's handshake `iniciarComunicacion` is not part of this model (only declared), and neither is `src/test/test.c`.

## Findings

| source | as written | input that shows it | evidently intended | confidence | as-written member | corrected member |
|---|---|---|---|---|---|---|
| src/buffer.c:41-73 | `queue` writes at `current_item`, the same index `getNext` reads | `queue(p1)`, `queue(p2)`, `getNext`, `dequeue`, `getNext` | a first-in-first-out queue: `p1` then `p2` | high (not executed) | RequestQueue.QueueTwiceLosesFirst | RequestQueue.RingBuffer.Queue |
| src/client.c:205-209 | `cortarArgumentos` copies the value but writes no terminating NUL, and the caller then `strcpy`s the buffer | "-pab" into a buffer that held "zzzz" | the buffer holds exactly "ab" | high (not executed) | ClientArgs.CutIntoUsedBuffer | ClientArgs.CutArgumentTerminated |
