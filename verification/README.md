# Verified model of the Resin web server plugin

The C plugin under `srun/` sits between Apache and a set of servlet-runner JVMs ("sruns"). This
project models its five working parts and one tree walker from the examples, and proves what they
promise. `dafny verify dfyconfig.toml` checks everything.

* **Connections** (`Words`, `Rotation`, `Sruns`, `Choice`, `Scheduler`, `Sessions`, `Strings`).
  `Scheduler` holds the plugin's records as classes and its loops as methods. Each loop is proved
  against the sweeps of `Sruns`, and those against `Choice`, which says without sweeps or state which
  runner a request gets and what is left of every other one. `dial(i, lastResort)` is the operating
  system's answer to a connect; the wall clock and `random()` are parameters.
* **Descriptors** (`Descriptors`, `OpenRuns`, `PoolSteps`). A state machine over the atomic regions of
  any number of concurrent requests, with an invariant over all runs, and the proofs that a whole
  `open_connection` call is such a run and that the other pool operations are its steps.
* **Framing** (`Packets`, `Lines`, `Streams`, `Framing`). The two 8192-byte buffers over a socket that
  cuts the bytes into arbitrary pieces. `Streams` has the buffers and the loops; `Lines` says as
  functions on one value what each routine does for every answer of the system, and what follows from
  that. `System.refuses` says which calls fail, `stops` where the peer pauses, `sizes` how the bytes
  are cut.
* **Requests** (`Answers`, `Serving`, `Response`, `Exchanges`, `Upload`, `Bytes`). The frame loop and the
  stop-and-wait upload against an arbitrary servlet runner. `Answered` and `Exchange` are functions of
  the runner's bytes alone that say how `send_data` and `write_request` should go; `Serve` and `Request`
  say what they do, whatever fails, and the methods do exactly that. `Complete` and `Dialogue` are
  runners that keep the protocol. `Bytes` says what each frame code does in plain numbers.
* **Failures and reuse** (`Failures`, `RequestFailures`, `Reuse`). When `send_data` and `write_request`
  keep their promises under failing calls, as exact conditions, and runs of several requests on one
  recycled socket.
* **Configuration** (`Rows`, `Registry`, `Markup`, `Parser`, `Building`, `Documents`, `Spelling`,
  `Notation`, `Characters`). `Rows` is the registry as a table, `Registry` the linked nodes in the heap that realize
  it, `Markup` the syntax as functions, `Parser` and `Building` the character-by-character parser proved
  equal to them on every input. `Spelling` and `Notation` prove that what a file parses to depends on
  its meaning only, however it is laid out and commented; `Documents` has the meanings and the way back
  from a tree. `Characters` takes the basic constructions from literal characters to the tree.
* **URL dispatch** (`Locations`, `Dispatch`). Patterns compiled to locations, the list of them, and
  matching, against the documented meaning of a pattern.
* **Navigation** (`Navigation`). Next and previous node and page in document order.

## Where the code and its documentation part

The model follows the code. Each item is proved as an exact condition, or with a concrete input.

* Session numbers whose base-64 digits fall on '0'..'9' do not come back: runner 52 is written `0aa`
  and read as 35 (`Sessions.DecodeEncode`, `Sessions.NumeralsCollide`).
* Under a given web-app prefix, a pattern matches less than documented if and only if it is a
  one-character name such as `x`, or `/*` directly under the root, or an extension that overlaps
  itself and is not already found within the prefix (`Locations.PatternsMeanWhatTheySay`).
* A packet reaches the wire whole exactly if its payload fits the write buffer
  (`Packets.WrittenIsEncoded`).
* A refused flush does not close the socket, and `send_data` goes on with whatever it read. The client
  gets a prefix of the answer for certain exactly if nothing is buffered, nothing is unsent, or the
  connection stays broken (`Failures.TellsPrefixExactly`); a code with an open socket means the frame
  boundary exactly if nothing is buffered or nothing is unsent (`Failures.TellsBoundaryExactly`): the
  single byte `Z` in the buffer of a connection that refuses everything is taken for a whole end frame
  (`Response.SendData`). For a request with n blocks the conditions are those of
  `RequestFailures.RequestTellsPrefixExactly` and `RequestFailures.RequestTellsBoundaryExactly`. Requests
  start with empty buffers, so with at most one block both promises hold whatever fails; with more, one
  refused flush, or a runner that does not pause, is enough to lose them (`Upload.ReuseMidFrame`).
* The pool keeps the socket and drops the buffers. What was received beyond the last answer is lost, so
  a recycled socket is at a frame boundary for certain exactly if the runner pauses after its answers
  (`Reuse.HandsBackExactly`, `Reuse.LostWithTheStream`).
* Descriptor 0 is never registered for cleanup (`Descriptors.DescriptorZeroIsAbandoned`); where every
  request registers, recycles or closes what it opened, a run loses a descriptor if and only if a
  request ends holding descriptor 0 (`Descriptors.OrderlyLosesOnlyZero`).
* Blank text is no value until the first text that is not blank, and always one after it
  (`Notation.TextSourceRun`); interior nodes may therefore hold blank values, and trees are compared
  without them. End tags close the current node whatever name they carry.
* The hash products of a sweep fit a 32-bit integer exactly up to 46340 runners
  (`Rotation.SlotFitsWord`).
* A parse runs into the missing parent of the root if and only if it comes to an end tag while no tag is
  open (`Markup.NullParentIff`); `</a>` is the shortest such file (`Markup.ClosingTooMuch`).

## Model

| member | source | states |
|---|---|---|
| Words.SignedAbsorbs | srun/stream.c:572-581 | wrapping a hash to 32 bits at every step gives the same word as wrapping the whole polynomial once |
| Rotation.RandomHost | srun/stream.c:572-586 | the hash is the wrapped base-23 polynomial of time, counter, random number and address bytes, negated if negative, which leaves the most negative word negative |
| Rotation.Magnitude | srun/stream.c:583-586 | only the most negative word stays negative under negation |
| Rotation.Start | srun/stream.c:708-722 | the start index is the hash modulo the number of runners with its sign removed: that number divides the hash less the start, or plus it for a negative hash |
| Rotation.EveryStart | srun/stream.c:572-586 | every runner is the start for some random number, whatever the address, the time and the counter |
| Rotation.OneHash | srun/stream.c:572-586 | one concrete call: at time 969656063 with random number 12345 the address 10.0.0.1 hashes to 421812582, which starts three runners at index 0 |
| Rotation.SlotIsAround | srun/stream.c:733 | the product form used by the sweeps is i places up or down from the start, around the list |
| Rotation.OrderPermutes | srun/stream.c:724-764 | every sweep visits every index exactly once, for every size, start and direction, beginning with the start |
| Rotation.OrderWalks | srun/stream.c:724-733 | from an odd start a sweep walks up around the list, from an even one down |
| Rotation.SlotFitsWord | srun/stream.c:733 | the products stay below 2^31 if and only if there are at most 46340 runners |
| Sruns.InWindowMeaning | srun/stream.c:650-651 | away from the unsigned wrap, a window test says that at most that many seconds have passed |
| Sruns.SweepStep | srun/stream.c:731-779 | a sweep from iteration n is that visit and, if it finds nobody, the sweep from n + 1 on the list it leaves |
| Choice.VisitMeaning | srun/stream.c:743-760 | one iteration serves exactly if the runner may be used and has a fresh socket or accepts, and changes no other runner |
| Choice.SweepChooses | srun/stream.c:731-779 | a sweep stops at the first runner in order that serves, from its pool if that is fresh |
| Choice.SweepState | srun/stream.c:731-779 | after a sweep, runners outside the order are unchanged, the serving one is alive and stamped, and a fruitless sweep left each as a failed visit leaves it |
| Choice.PassingKeepsStanding | srun/stream.c:731-760 | a runner the first sweep passed over looks the same to the second |
| Choice.EarlyState | srun/stream.c:729-760 | what the first two sweeps together leave of every runner |
| Choice.EarlyChooses | srun/stream.c:729-760 | who serves in the first two sweeps, in terms of the runners at the start of the call |
| Choice.OpenChooses | srun/stream.c:693-782 | the three sweeps choose by priority: a fresh primary pool (no session), then a fresh pool or timely connect, then any connect or leftover backup pool |
| Choice.FailureIsTotal | srun/stream.c:762-782 | a call finds nobody only if every runner of the order refused the last connect, and the timed one unless it was waiting or a backup not yet allowed; all are then dead, stamped and without a pool |
| Choice.OpenContract | srun/stream.c:693-782 | the contract of both outcomes: total failure, or a runner alive and stamped that lost exactly the returned descriptor, or has an empty pool and a descriptor the system handed out |
| Choice.SweepKeepsEmpty | srun/stream.c:641-668 | no sweep ever fills a pool |
| Choice.BackupOnlyAfterPrimaries | conf/samples/load_balance.conf:4-5 | a request without a session gets a backup only if in the same call every primary had no fresh socket and was waiting or refused; their pools are then empty |
| Choice.ReusesWheneverPossible | srun/stream.c:729-741 | a request without a session is served from a primary's pool if and only if some primary has a fresh pooled socket |
| Choice.AffinityServes | doc/ref/balance.html:198-227 | with a session, the runner tried first serves, by pool or timed connect, if and only if it has a fresh socket or is outside its dead window and accepts |
| Choice.FirstCloses | srun/stream.c:641-668 | what a call with a session closes first is the pool of the runner tried first, unless that is fresh |
| Choice.StalePrimariesEmptied | srun/stream.c:729-741 | without a session and without a fresh primary, a call leaves every primary without a pool |
| Choice.WaitingIsPassed | srun/stream.c:743-760 | a runner that is not fresh, inside its dead window, and refuses the last connect does not serve a call with a session |
| Choice.FailedReuseEmpties | srun/stream.c:641-668 | a failed reuse empties the pool and closes exactly what it held, whatever the clock says; a successful one closes nothing and takes the top |
| Choice.OpenKeepsRunners | srun/stream.c:693-782 | a call leaves every runner in its place with its address, session number, limits and times; it may fill in port 6802 where none was given, stamp the runner, and take pooled sockets off the top |
| Choice.HandedOutIsOpen | srun/stream.c:591-608 | where no pooled descriptor is negative, the descriptor a call hands out is not negative |
| Scheduler.Config.constructor | srun/mod_caucho.c:179-203 | the whole state: sixteen entries, all zero but the first, one unresolved runner in use on port 6802 with a pool limit of 32 |
| Scheduler.Config.AddHost | srun/stream.c:505-566 | the whole state: a lone default or unresolved entry is given up, the list doubles with zeroed entries when full, and a resolved host is appended with its position as session number, limit 32, timeouts 2, 10 and 120, standing as its entry stood; all other entries are unchanged |
| Scheduler.AddHosts | srun/stream.c:505-566 | after any sequence of additions every session number is its position, and the hosts in use are those the sequence lists |
| Scheduler.ListedAreResolved | srun/stream.c:505-566 | from a new configuration the hosts in use are the directives that resolve, in order, from the first one of one's own on; before that at most a default just given; failed lookups and growth included |
| Scheduler.DefaultIsReplaced | srun/stream.c:513-515 | the directive after a lone default replaces it |
| Scheduler.Close | srun/stream.c:69-79 | the stream lets go first, the cleanup is dropped, and one descriptor is closed |
| Scheduler.CloseAll | srun/stream.c:657-664 | a pool is closed from the top down, each descriptor once |
| Scheduler.ReuseSocket | srun/stream.c:591-668 | in list fields and numbers: reuse succeeds exactly if the pool is not empty and `last + liveTime`, in 32 bits, is not before now, where `last` is the last use or an earlier now; below the wrap that is at most liveTime seconds since; success takes the top and stamps the runner alive, failure drains the pool and leaves the stream untouched |
| Scheduler.Connect | srun/stream.c:220-252 | a connect fills in port 6802 where none is given and leaves the stream with the answer and empty buffers |
| Scheduler.FirstHost | srun/stream.c:703-722 | a valid session number is the first host; any other request starts at the wrapped hash modulo the number of runners, its sign removed |
| Scheduler.VisitServes | srun/stream.c:731-779 | in list fields and numbers: no backup serves the first loop, nor the second without a session; a runner serves exactly if its pool was used within liveTime, or it accepts and, in the timed loop, did not fail within deadTime |
| Scheduler.VisitRunner | srun/stream.c:731-779 | one loop iteration does to process, stream and list what the visit on values says, and serves exactly if the fields of the runner say so |
| Scheduler.VisitOrder | srun/stream.c:724-733 | the indices computed by the loops are a permutation that begins with the start and walks up from an odd one, down from an even one |
| Scheduler.RunSweep | srun/stream.c:731-779 | a loop with its early exit is the sweep on values, closes included |
| Scheduler.OpenConnection | srun/stream.c:693-782 | the three loops in order are the three sweeps, over one order that begins with the session's runner or at the hash modulo the size, and walks around the list |
| Scheduler.OpenForRequest | srun/stream.c:784-806 | succeeds exactly if the priorities name a runner, and then holds its descriptor, a valid one, registered for cleanup, with the runner alive and stamped; otherwise all runners are dead, stamped and empty; in list fields and numbers, when the session's runner serves, by its top socket or a timed connect, and when a primary's pool serves a request without a session; the configuration stays valid |
| Scheduler.Recycle | srun/stream.c:613-636 | the socket goes on top of its pool if the configuration is the same and there is room, else it is closed; its cleanup goes either way |
| Scheduler.CloseChild | srun/mod_caucho.c:858-877 | every pooled descriptor of every runner in use is closed exactly once, and nothing else changes |
| Sessions.DecodeSession | srun/stream.c:462-489 | three base-64 digits, least significant first; any other character among them gives -1 |
| Sessions.DigitTable | srun/stream.c:467-483 | character by character: the letters, `_` and `/` stand at their values, the numerals fall on 35 to 44, and every other character, and no other, is -1 |
| Sessions.NoSession | srun/stream.c:462-489 | an id gives -1 if and only if it is shorter than three or one of its first three characters is outside the alphabet |
| Sessions.DecodeEncode | doc/ref/balance.html:198-227 | a runner's number comes back from its id prefix if and only if none of its digits is written as a numeral |
| Sessions.NumeralsCollide | srun/stream.c:475-476 | the ids of runners 0, 1, 64 and 4096, and that runners 52 and 35 are read alike |
| Sessions.SessionIndex | srun/mod_caucho.c:320-341 | the first Cookie header that yields a number wins, the URI is used only if none does |
| Sessions.RewrittenUrlNamesRunner | srun/stream.c:491-500 | a URL rewritten with runner k's id is read back as k if and only if k avoids numerals |
| Sessions.CookieNamesRunner | srun/stream.c:491-500 | a JSESSIONID cookie anywhere in a header names the runner its value begins with if and only if that runner avoids numerals |
| Strings.FindAppended | srun/stream.c:491-500 | a marker whose first character does not recur in it is first found where it was appended |
| Strings.FoundIffThere | srun/config.c:583 | the search finds something if and only if the string can be cut into a part before, the pattern and a part after |
| Descriptors.CloseSeqOwned | srun/stream.c:657-664 | closing distinct open descriptors closes exactly those and hits no closed one |
| Descriptors.EmptiedKeeps | srun/stream.c:641-668 | draining one pool keeps the ownership invariant and loses no other descriptor |
| Descriptors.TakeKeeps | srun/stream.c:591-608 | moving a pooled socket to a stream keeps the invariant |
| Descriptors.ConnectKeeps | srun/stream.c:220-252 | handing a stream a descriptor that was not open keeps the invariant |
| Descriptors.CloseKeeps | srun/stream.c:69-79 | closing a stream's socket keeps the invariant and conservation |
| Descriptors.PutBackKeeps | srun/stream.c:613-636 | recycling into a pool with room keeps the invariant and conservation |
| Descriptors.FinishKeeps | srun/mod_caucho.c:148-160 | the end of a request closes no pooled descriptor and none twice, and loses one exactly if the stream still held an unregistered socket |
| Descriptors.StepKeeps | srun/stream.c:591-691 | every atomic step keeps the invariant, and loses track of a descriptor exactly by abandoning it |
| Descriptors.StaysOwnerless | srun/stream.c:591-691 | no step finds an owner for a descriptor that has none, or closes it |
| Descriptors.RunConserves | srun/stream.c:591-806 | over every interleaving of any number of requests: no descriptor named twice, none closed twice, no pool over its maximum, no pooled one registered; and none is lost if and only if no request ended with an unregistered socket |
| Descriptors.NotedStep | srun/stream.c:784-806 | where a request does not end owing a registration, it abandons its socket if and only if that is descriptor 0 |
| Descriptors.OrderlyLosesOnlyZero | srun/stream.c:784-806 | in every run in which a request registers, recycles or closes each socket it opens before it ends, as requests and the status page do, none is lost if and only if no request ends holding descriptor 0 |
| Descriptors.OneOwner | srun/stream.c:591-636 | every open descriptor is held by a stream or pooled, never both, and a pooled one has no registered cleanup |
| Descriptors.DescriptorZeroIsAbandoned | srun/mod_caucho.c:148-160 | a concrete run in which descriptor 0 stays open without an owner |
| OpenRuns.RunAppend | srun/stream.c:693-782 | runs compose |
| OpenRuns.VisitRuns | srun/stream.c:731-779 | one loop iteration is a legal run of atomic steps with the visit's result |
| OpenRuns.SweepRuns | srun/stream.c:731-779 | so is a whole sweep |
| OpenRuns.OpenRunsAsSteps | srun/stream.c:693-782 | a whole call is a legal run that keeps the invariant and ends with the runners, open descriptors and socket the sweeps compute |
| PoolSteps.Close | srun/stream.c:69-79 | on the plugin's records a close is the step Close and closes what that step closes |
| PoolSteps.Recycle | srun/stream.c:613-636 | a recycle is the step Recycle |
| PoolSteps.DrainsRun | srun/mod_caucho.c:858-877 | draining the pools one after the other is a legal run that closes exactly what they held |
| PoolSteps.CloseChild | srun/mod_caucho.c:858-877 | the end of a child process is such a run over the runners in use |
| Packets.LengthOfHead | srun/stream.c:412-425 | the three length bytes give the length back if and only if it is below 2^24 |
| Packets.HeadOfLength | srun/mod_caucho.c:586-590 | and the length gives the three bytes back |
| Packets.EncodeInjective | srun/stream.c:412-425 | a byte stream begins with at most one packet |
| Packets.WrittenIsEncoded | srun/stream.c:321-330 | the wire carries the packets themselves if and only if every payload fits the write buffer |
| Lines.FillFacts | srun/stream.c:271-289 | a fill flushes before it waits and loses no byte, for every size of piece; it fails only with the socket closed or a flush refused and nothing left buffered, and if no call is refused only when no byte is left to come |
| Lines.ByteFacts | srun/stream.c:291-300 | so does the read of one byte, which takes nothing if it fails |
| Lines.TakeFacts | srun/stream.c:337-384 | so does a read of n bytes, which falls short only where a fill fails |
| Lines.HeadFacts | srun/mod_caucho.c:586-593 | the four reads of a head: if none fails they are the next four bytes; if one fails, the code or the closed socket tells it, unless something was buffered and something unsent at the start |
| Lines.LimitFacts | srun/stream.c:386-402 | a bounded read consumes the whole payload and keeps the C string that fits, or is cut off where a fill fails |
| Lines.StringFacts | srun/stream.c:437-456 | the read of a string consumes exactly one frame, whatever its code, and keeps its C string, or is cut off where a fill fails |
| Lines.PackedFacts | srun/stream.c:302-335 | a write touches nothing unread, and closes the stream only if a call is refused |
| Streams.Stream.Flush | srun/stream.c:254-269 | does to the buffers and the socket what `Lines.Flush` says; on success everything written so far has been sent, in order |
| Streams.Stream.FillBuffer | srun/stream.c:271-289 | called with nothing unread, it becomes the line `Lines.Fill` gives; what was written is as it was, and every wait so far was made with nothing unsent |
| Streams.Stream.ReadByte | srun/stream.c:291-300 | becomes the line `Lines.Byte` gives and returns its byte or -1 |
| Streams.Stream.ReadAll | srun/stream.c:337-362 | the loop reads what `Lines.Take` gives, however the pieces fall, and fails exactly if that is short |
| Streams.Stream.Skip | srun/stream.c:364-384 | the loop passes what `Lines.Take` gives, and nothing for a negative length |
| Streams.Stream.ReadHead | srun/mod_caucho.c:586-593 | the four reads and the length computed from them are those of `Lines.ReadHead` |
| Streams.Stream.Write | srun/stream.c:302-335 | appends to the output across any flush; a buffer longer than 8192 bytes is dropped |
| Streams.Stream.WritePacket | srun/stream.c:412-425 | appends code, 24-bit length and payload, and marks what was unread at that moment |
| Streams.Stream.ReadLimit | srun/stream.c:386-402 | keeps the text `Lines.ReadLimit` gives |
| Streams.Stream.ReadString | srun/stream.c:437-456 | keeps the text `Lines.ReadString` gives |
| Framing.WritePackets | srun/stream.c:254-335 | on success the wire has exactly the written form of all packets; it succeeds unless a call is refused |
| Framing.ReadPackets | srun/stream.c:271-362 | from a stream that begins with n packets, those n are read and what follows is left; it fails only if a call is refused, as it never asks for more than is there |
| Framing.NextPacket | srun/stream.c:412-425 | the packet read is the next of the sequence |
| Framing.Transfer | srun/stream.c:254-456 | the round trip: packets of up to 8192 bytes arrive as the same sequence however the bytes are cut, and they do arrive unless a call is refused |
| Answers.JoinStep | srun/mod_caucho.c:583-641 | the answer ahead, one turn of the loop at a time |
| Answers.AnswerReadsBack | srun/mod_caucho.c:570-644 | a complete answer, whatever follows it, is found whole and exactly as it was meant |
| Answers.AnswerStops | srun/mod_caucho.c:641 | a whole answer stops at its last frame and at no frame before |
| Serving.CopyFacts | srun/mod_caucho.c:534-565 | a copy of len bytes gives the client exactly the next len bytes, or a prefix of them; if nothing is refused it falls short only when the bytes run out, having given all of them |
| Serving.SwitchFacts | srun/mod_caucho.c:596-640 | each branch of the switch consumes exactly one item and has its effect on body, headers and keepalive, or stops within it |
| Serving.ServeFacts | srun/mod_caucho.c:570-644 | against any runner, with nothing buffered or nothing unsent at the start, or on a connection that stays broken: the client has a prefix of the answer's body, and if every byte asked for was there it is the whole answer, just past its last frame, with each status, header and flush at its place; if nothing is refused it is whole unless the bytes end early |
| Response.WriteResponse | srun/mod_caucho.c:534-565 | the copy loop does to stream and client what `Serving.Copy` says |
| Response.Frame | srun/mod_caucho.c:596-640 | the switch does what `Serving.Switch` says |
| Response.SendData | srun/mod_caucho.c:570-644 | the frame loop does what `Serving.Serve` says and keeps all that `Served` promises; and where only the start of an end frame has been received and everything is refused, it returns END with the socket open and the rest of the frame still to come |
| Failures.CutShortEnds | srun/mod_caucho.c:586-593 | an end frame of which at least its first byte is buffered, on a connection that refuses everything with something unsent, ends the answer with the socket open, whatever is missing of it |
| Failures.SlippedHead | srun/mod_caucho.c:586-593 | one flush refused with one to three bytes of a head buffered: the loop goes on one byte early |
| Failures.SlippedPayload | srun/mod_caucho.c:637-639 | one flush refused before a payload: the payload is read as frames |
| Failures.SlippedStart | srun/mod_caucho.c:586-593 | one flush refused with nothing buffered: the loop gives up three bytes into the answer, with the socket open |
| Failures.TellsPrefixExactly | srun/mod_caucho.c:570-644 | for every runner and every pattern of refusals the client of `send_data` has a prefix of the answer, if and only if nothing is buffered, or nothing is unsent, or the connection stays broken |
| Failures.TellsBoundaryExactly | srun/mod_caucho.c:570-644 | for every runner and every pattern of refusals a code with an open socket means the frame boundary after the whole answer, if and only if nothing is buffered or nothing is unsent |
| Exchanges.AfterNext | srun/mod_caucho.c:667-672 | the bytes ahead after one more answer that lets the upload go on |
| Exchanges.BlocksNeverOutrunAcks | srun/mod_caucho.c:667-672 | k answers that let the upload go on hold exactly k acknowledging frames, so blocks never exceed acknowledgements read plus one |
| Exchanges.EachBlockWaits | srun/mod_caucho.c:667-672 | part of the runner's bytes is read between any two blocks |
| Exchanges.DialogueFinishes | srun/mod_caucho.c:649-683 | a runner that keeps the protocol makes the request finish with exactly its answers, whatever follows them |
| Exchanges.OneAnswer | srun/mod_caucho.c:667-682 | what one more answer adds to a request of n blocks and to what the client gets |
| Exchanges.LastComplete | srun/mod_caucho.c:678-682 | every dialogue that keeps the protocol ends with a complete answer to the end packet |
| Exchanges.SendingFacts | srun/mod_caucho.c:659-676 | what an upload promises against any runner: either only the last answer is to come, or the client has a prefix and nothing more is read; and block j is written exactly when j answers have been read and each let it go out |
| Exchanges.RequestFacts | srun/mod_caucho.c:649-683 | what a request promises against any runner: blocks in their turn, a prefix of the answers for the client, a stream to be reused just past the last answer with nothing unsent and nothing received beyond a pause; and if nothing is refused, exactly what the runner's bytes say |
| Bytes.DataFrame | srun/mod_caucho.c:570-644 | byte 68 with a 24-bit length, highest byte first: exactly that many bytes go to the client and the answer goes on behind them |
| Bytes.DataCutShort | srun/mod_caucho.c:570-644 | of a data frame that ends early the client gets what came |
| Bytes.SignalFrame | srun/mod_caucho.c:570-644 | bytes 70, 71 and 75 are whole frames with their head, whatever length it gives; only 75 asks to keep the connection |
| Bytes.TextFrame | srun/cse.h:147-161 | 90, 88, 0 and the code waited for end an answer and every other text frame does not, up to 8192 bytes; 83 is the status line |
| Bytes.HeaderFrame | srun/mod_caucho.c:570-644 | 72 is a header key and the next frame, whatever its code, is the value, of which 8191 bytes are kept |
| Bytes.BlockWritten | srun/stream.c:405-427 | a body block goes out as byte 68, its length with the highest byte first and the bytes, up to 8192; the end packet is 90, 0, 0, 0 |
| Bytes.AnswerDecides | srun/mod_caucho.c:649-683 | after an answer that ends with 90 or 88 only the end packet is sent, after any other the next block; the stream is usable again exactly after 90 |
| Bytes.FinalEnds | srun/mod_caucho.c:676-682 | the answer to the end packet is the one read up to byte 90, 88 or 0, as the frame laws say, and is finished exactly if it is there whole |
| RequestFailures.RequestTellsPrefixExactly | srun/mod_caucho.c:649-683 | for every runner and every pattern of refusals the client of a request with n blocks has a prefix of its answers, if and only if the connection stays broken, or there is at most one block and nothing is buffered at the start |
| RequestFailures.RequestTellsBoundaryExactly | srun/mod_caucho.c:682-684 | for every runner and every pattern of refusals a stream to be reused stands at the boundary after a full answer, if and only if, with at most one block, nothing is buffered at the start, and with more, the connection stays broken and the runner pauses after its answers |
| Reuse.RunFares | srun/mod_caucho.c:720-728 | several requests on one recycled socket, whatever fails: each client gets a prefix of its own part of the runner's bytes, and each socket given back is at the boundary, with nothing received or unsent to lose |
| Reuse.RunIsFull | srun/mod_caucho.c:720-728 | and if nothing is refused each request is served in full, and the run goes on exactly as long as the answers end with END |
| Reuse.DialoguesFinish | srun/mod_caucho.c:649-683 | the bytes of a runner that keeps the protocol request after request are taken for exactly its answers, request by request |
| Reuse.EveryRequestServed | srun/mod_caucho.c:720-728 | with such a runner every client gets the body of its own answers and the socket is given back each time |
| Reuse.NoAnswerGoesAstray | srun/mod_caucho.c:720-728 | and whatever fails no client gets a byte of another's answers |
| Reuse.HandsBackExactly | srun/stream.c:591-608 | from emptied buffers (and, with two blocks or more, on a connection that stays broken) the socket alone is at the boundary after every request that asks for reuse, if and only if the runner pauses after its last answer as after the others |
| Reuse.LostWithTheStream | srun/stream.c:591-608 | without the pause, the end frame that came in the same receive as the last answer is gone with the read buffer |
| Upload.SendBlocks | srun/mod_caucho.c:659-676 | the loop over the body does what `Exchanges.Sending` says, block by block with its marks, and writes exactly the blocks it counts |
| Upload.WriteRequest | srun/mod_caucho.c:649-683 | does what `Exchanges.Request` says and keeps all that `Promised` promises; the output is the head, a prefix of the blocks in order and the end packet; what it waits for came after all it wrote was sent; and an end frame cut short in the last wait makes it ask for reuse in the middle of that frame |
| Upload.ReuseMidFrame | srun/mod_caucho.c:682-684 | two blocks on a new stream to a runner that does not pause, on a connection that breaks after its first receive: reuse is asked for with three bytes of the last frame still to come |
| Upload.ServeRequest | srun/stream.c:591-608 | a request with a stream of its own is `Reuse.Requesting` on the socket alone |
| Upload.ServeRequests | srun/mod_caucho.c:720-728 | requests one after the other on one socket give their clients what `Reuse.Run` says |
| Rows.SiblingLinks | srun/registry.c:95-115 | next and prev are inverse and first and last are the ends of the sibling list |
| Rows.AppendLinks | srun/registry.c:95-115 | a new last child changes its parent's last, perhaps its first, one next link, and nothing else |
| Rows.AppendNew | srun/registry.c:95-115 | the new node has no child and no next, and its prev is the former last child |
| Rows.DepthPrefix | srun/registry.c:95-115 | a node's depth does not depend on what is added later |
| Rows.LinkIsFirst | srun/registry.c:523-532 | a lookup finds the first sibling with the key whenever there is one |
| Registry.DueAfterAdd | srun/registry.c:95-115 | what each old node's fields must be after an addition |
| Registry.Tree.Add | srun/registry.c:95-115 | the relinking realizes a new last row of the table, on every tree |
| Registry.Tree.SetValue | srun/registry.c:166-193 | an assignment to one node's value changes that value only |
| Registry.Tree.ProperLinks | srun/registry.c:95-115 | in links only: inverse siblings, ends of lists, children pointing to parents, parents created earlier, so no cycle and no sharing |
| Registry.NextLink | srun/registry.c:523-532 | the first node with the key at or after the given one, or none |
| Registry.FindValue | srun/registry.c:534-543 | that node's value |
| Markup.TokenOf | srun/registry.c:204-219 | a run of a class followed by another character is the token |
| Markup.ParseAttributes | srun/registry.c:222-235 | attributes only add rows, keep the tree proper and never read backwards |
| Markup.TurnKeeps | srun/registry.c:436-510 | every construct of the main loop keeps a proper tree whose current node is as deep as tags are open |
| Markup.ParseKeeps | srun/registry.c:436-510 | so does the parse of any input, whether it ends with the file or early |
| Markup.NullParentTurn | srun/registry.c:291-293 | a turn runs into the missing parent if and only if an end tag is next and as many tags were closed as opened |
| Markup.NullParentIff | srun/registry.c:436-510 | the parse of any input does so if and only if it comes to such a point |
| Markup.ClosingTooMuch | srun/registry.c:291-293 | `</a>` is such a file |
| Markup.DoctypeEnds | srun/registry.c:323-347 | a declaration is skipped exactly through the first closing bracket outside quotes, or to the end of the file |
| Parser.Reader.Read | srun/registry.c:64-72 | the next character, with the line counter equal to one plus the newlines consumed |
| Parser.NewlinesJoin | srun/registry.c:64-72 | the counter counts one for each line end and nothing else |
| Parser.Reader.Unread | srun/registry.c:129-156 | a pushback restores the input and keeps the counter right, as no newline is pushed back |
| Parser.Reader.Collect | srun/registry.c:77-90 | the token buffer holds the longest run of the class, or the run would make the buffer grow |
| Parser.Reader.SkipComment | srun/registry.c:301-318 | consumes exactly through the first `-->`, runs of dashes included, or to the end of the file |
| Parser.Reader.SkipPI | srun/registry.c:352-366 | consumes exactly through the first `?>`, runs of question marks included, or to the end of the file |
| Parser.Reader.SkipDoctype | srun/registry.c:323-347 | consumes what `Markup.AfterDoctype` skips: through the first closing bracket outside quotes |
| Building.ReadValue | srun/registry.c:158-193 | the value loop equals its function and leaves the tree valid |
| Building.ReadAttribute | srun/registry.c:124-198 | so does one attribute |
| Building.ReadAttributes | srun/registry.c:222-235 | so does the attribute loop |
| Building.ReadTag | srun/registry.c:203-258 | so does a start tag |
| Building.ReadEndTag | srun/registry.c:263-296 | so does an end tag |
| Building.TakeTurn | srun/registry.c:445-507 | one construct of the main loop does to reader, tree and variables what the turn on values says |
| Building.ParseFile | srun/registry.c:436-510 | on every input the tree in the heap is proper and is exactly the table of the functional parse, which Characters and Notation say in literal text |
| Documents.LikeBuild | conf/resin.conf:15-18 | building a document on trees equal up to blank interior values gives such trees |
| Documents.BuildDocs | srun/registry.c:95-115 | the document read back from the rows it built is that document |
| Documents.TrimBuild | srun/registry.c:464-470 | leaving blank values of interior nodes out of a document is leaving them out of its tree |
| Documents.LookupsAgree | srun/registry.c:523-543 | on trees equal up to blank interior values every lookup finds the same node, with the same value where it has no children |
| Spelling.AttrRun | srun/registry.c:124-198 | a written attribute, with any white space before it and about its equals sign, in any of three quotings, is read as one leaf, or as the node's own value if it is named id |
| Spelling.AttrsRun | srun/registry.c:222-235 | a written list of attributes, set off by any white space or by a quote, is read one after the other |
| Spelling.AttrRowsBuild | srun/registry.c:144-148 | ids anywhere among the attributes are the node's value, the last one counting, and the others are its leaves in order |
| Spelling.TagRun | srun/registry.c:203-258 | a written tag, with any white space before its end, is read as its node, value and attributes |
| Spelling.CommentEnds | srun/registry.c:301-318 | a comment without the terminator in it ends at its own |
| Spelling.DeclarationEnded | srun/registry.c:323-347 | a declaration ends at its own bracket, whatever follows |
| Spelling.PieceRun | srun/registry.c:464-486 | a comment, instruction or declaration is passed over and does no more than end the text before it |
| Notation.TextRun | srun/registry.c:459-507 | text without a bracket is collected whole |
| Notation.GapRun | srun/registry.c:436-510 | any mixture of white text, comments, instructions and declarations between tags leaves at most a blank value on a node without children |
| Notation.TextSourceRun | srun/registry.c:454-507 | a leaf around any text gets that value, unless all text so far was blank |
| Notation.TrailRun | srun/registry.c:454-507 | comments and white text after a leaf's text change nothing |
| Notation.StartRun | srun/registry.c:454-488 | an opening or empty tag adds its node below the current one |
| Notation.EndRun | srun/registry.c:263-296 | an end tag returns to the parent and changes no row |
| Notation.SourceRun | srun/registry.c:436-510 | any writable document, met at any point of a parse, adds exactly what it means |
| Notation.KidsRun | srun/registry.c:436-510 | so does any list of documents, each with its own gap before it, and the gap after the last |
| Notation.FileRun | srun/registry.c:436-510 | a writable file, with its own gap at every place, is parsed to its end, back at the root, with as many closes as opens |
| Notation.ParseReadsBack | srun/registry.c:436-510 | the round trip: the documents read back from the parse of a file are the ones meant, up to blank interior values |
| Notation.SameTreeIffSameMeaning | conf/resin.conf:15-18 | two files, each laid out and commented in its own way, parse to the same tree, up to blank interior values, if and only if they mean the same |
| Notation.ThreeNotations | conf/resin.conf:15-18 | the three documented spellings of a leaf are written as shown and mean the same, the attribute if and only if it is not named id |
| Notation.LayoutIsInvisible | conf/resin.conf:15-18 | a document on lines of its own with any comments is written out as laid out, can be written exactly if its parts can, and means the same |
| Notation.MeaningAnywhere | conf/resin.conf:15-18 | exchanging spellings at any depth of a document keeps its meaning |
| Notation.MeaningsAt | conf/resin.conf:15-18 | so does exchanging them in a list of documents |
| Characters.LeafOfText | srun/registry.c:454-507 | from characters to tree: `<a>w</a>` leaves a without a value exactly if w is made of blanks, tabs, newlines and form feeds, and otherwise with the value w, for every name and every w up to 1022 characters |
| Characters.LongText | srun/registry.c:77-90 | text of more than 1022 characters, whatever they are, overruns the buffer |
| Characters.LongName | srun/registry.c:203-222 | so does a tag name |
| Characters.BareAttributes | srun/registry.c:124-258 | from characters to tree: attributes are set off by any white space made of blank, tab, newline, return, vertical tab and form feed, and a bare value ends there |
| Characters.QuotedAttribute | srun/registry.c:124-198 | from characters to tree: a quoted value is everything up to the same quote, white space of those six characters may stand about the equals sign, and id is the value of the node itself |
| Characters.DeclarationOf | srun/registry.c:323-347 | from characters: a declaration runs through any brackets within its quotes and ends at the first one outside |
| Characters.IncludeStops | srun/registry.c:488-496 | a tag of that name is where the parse stops for an include, whatever follows; LeafOfText shows that no other name does |
| Locations.CleanPrefix | srun/config.c:123-202 | the prefix buffer is the web-app prefix with a leading and no trailing slash |
| Locations.EditPath | srun/config.c:123-202 | the editing of the prefix buffer and the flags, the short-buffer test included, compute what the pattern is compiled to |
| Locations.CompilePattern | srun/config.c:123-202 | host and port are parted at the colon and joined to the edited path; GivenReadsBack says which host and port that is |
| Locations.AtoiOfNumeral | srun/config.c:159-161 | the number read from a decimal numeral is that number, after any white space and sign, whatever follows it but a digit |
| Locations.GivenReadsBack | srun/config.c:158-162 | from a name without a colon, alone or with a colon and a numeral, exactly that name and number are read, 0 standing for none |
| Locations.CompiledParts | srun/config.c:123-202 | in each documented form, which prefix, extension and exactness matching gets to see, under every prefix the pattern is not misread under |
| Locations.CompileIsCompiled | srun/config.c:123-202 | compiled prefixes are empty or absolute |
| Locations.PrefixSpellings | doc/ref/app-config.html:808-844 | `foo`, `/foo`, `foo/` and `/foo/` are one web-app, for every name with no slash at its ends, and nothing and `/` are the root |
| Locations.StartsWith | srun/config.c:533-547 | the URI is the path or below it, never a longer name |
| Locations.UnderMeaning | srun/config.c:533-547 | below a path means the path itself, or the path, a slash and anything |
| Locations.HasEndedMeaning | srun/config.c:549-566 | an ended occurrence means anything, the extension, and nothing or a slash and anything |
| Locations.MatchSuffix | srun/config.c:549-566 | the search ends and is the scan that resumes after a whole match |
| Locations.ScanSound | srun/config.c:549-566 | what the scan finds is there |
| Locations.ScanComplete | srun/config.c:549-566 | it misses nothing of an extension without a self-overlap |
| Locations.SkippedUriIsSkipped | srun/config.c:562 | for any self-overlap of an extension, under every prefix within which the scan fails, there is a URI whose ended occurrence is stepped over |
| Locations.DoubledIsSkipped | srun/config.c:562 | the extension doubled over its overlap is such a string by itself |
| Locations.PrefixDecides | srun/config.c:549-566 | where the scan succeeds within the prefix, it is right about every URI below it |
| Locations.ScanMeaning | srun/config.c:549-566 | the scan means an occurrence ended by the end or a slash, on every URI, if and only if the extension has no such overlap |
| Locations.MatchLocation | srun/config.c:568-605 | true if and only if some location of the list matches host, port and URI; MatchesParts and PatternMeaning say what matching is |
| Locations.MatchesParts | srun/config.c:583-587 | a location admits a request exactly if its host is empty or the request's host occurs in it, one of the ports is 0 or both are the same, and its path matches |
| Locations.PatternMeaning | doc/ref/app-config.html:808-844 | compile-then-match is the documented meaning on every host, port and URI, for every server name with or without a port and every documented pattern under every prefix it is not misread under |
| Locations.MisreadDiffers | srun/config.c:193 | under a prefix a pattern is misread under, there is an absolute URI it should match and does not, for any server name, request host and port |
| Locations.PatternsMeanWhatTheySay | doc/ref/app-config.html:808-844 | for each server name, port and web-app prefix a documented pattern means what it should on every request if and only if it is not misread there |
| Locations.FormsMean | doc/ref/app-config.html:808-844 | the documented forms in literal text: `/x` is that URI alone, `/x/*` it and all below, `*x` any URI of the web-app with an ended x, and `/`, `/*` or nothing the whole web-app |
| Locations.FormsAreRead | srun/config.c:173-202 | of these forms only `/*` under the root and an extension that overlaps itself are ever misread |
| Locations.FormsWithoutSlash | srun/config.c:164-189 | a pattern means the same without its slash |
| Dispatch.Table.Add | srun/config.c:65-111 | a location is prepended exactly if it is not there yet, so the list never has duplicates |
| Dispatch.Table.AddPattern | srun/config.c:123-202 | a pattern adds its compiled location |
| Dispatch.Table.MatchRequest | srun/config.c:610-640 | the request test is the match of the URI up to its session id, or the security check; ConfiguredMeaning says it in literal text |
| Dispatch.AddAllKeeps | srun/config.c:65-111 | after any sequence of additions the list holds exactly the added set, each once |
| Dispatch.MatchIsDisjunction | srun/config.c:568-605 | matching is the disjunction over the set ever added, independent of order and repetition, and monotone in it |
| Dispatch.ConfiguredMeaning | srun/config.c:568-640 | from the configured patterns to the answer: a request matches if and only if some pattern's server name, port and documented path want it, or its URI without session id contains `/j_security_check` |
| Dispatch.StrippedEnds | srun/config.c:610-632 | the URI tested ends where `;jsessionid=` begins |
| Dispatch.RewritingIsInvisible | srun/config.c:610-640 | appending a session id never changes the result |
| Navigation.DocumentFacts | doc/examples/xsl/WEB-INF/scripts/Navigation.js:204-256 | the links of every document are those of its nodes laid out in document order |
| Navigation.PositionsDiffer | doc/examples/xsl/WEB-INF/scripts/Navigation.js:204-256 | no node of a linked document is at two positions |
| Navigation.GetNext | doc/examples/xsl/WEB-INF/scripts/Navigation.js:242-256 | the node after the given one in document order, or none at the last |
| Navigation.GetPrevious | doc/examples/xsl/WEB-INF/scripts/Navigation.js:208-221 | the node before it, or none at the root |
| Navigation.VisitAll | doc/examples/xsl/WEB-INF/scripts/Navigation.js:238-256 | iterating from the root visits every node exactly once in document order and stops |
| Navigation.StepAndBack | doc/examples/xsl/WEB-INF/scripts/Navigation.js:208-256 | previous undoes next at every node |
| Navigation.BackAndStep | doc/examples/xsl/WEB-INF/scripts/Navigation.js:208-256 | next undoes previous at every node |
| Navigation.GetNextPage | doc/examples/xsl/WEB-INF/scripts/Navigation.js:226-236 | the nearest page after the node, or none if there is none |
| Navigation.GetPreviousPage | doc/examples/xsl/WEB-INF/scripts/Navigation.js:192-202 | the nearest page before the node, or none if there is none |
| Navigation.PageAndBack | doc/examples/xsl/WEB-INF/scripts/Navigation.js:192-236 | from a page, the previous page of the next page is the page itself |
| Navigation.PageBackAndForth | doc/examples/xsl/WEB-INF/scripts/Navigation.js:192-236 | and the next page of the previous page |

## Left out

- Streams.Stream.Write: models a `send` that takes everything or fails; the code treats a short send as complete, and what is then on the wire is not modelled.
- Response.WriteResponse: models an `ap_rwrite` that writes all it is given or fails; the code subtracts the wrong length after a short write.
- Response.Frame: status, key and unknown frames longer than the 8192-byte C buffers are not modelled: an answer that comes to one is `Wild`, and nothing is promised from there on. The status-line split and Apache's header table rules are reduced to recorded events.
- Scheduler.Connect: the socket calls, the timed wait and name lookup are answers of the system, one per runner and kind of connect within a call.
- Scheduler.Recycle: the close packet written before a close is not part of the connection state; the buffered half of `stream_t` is in `Streams`, and the two halves are separate classes.
- Upload.WriteRequest: the environment and headers are an arbitrary list of packets given as the head; the keepalive flag, which the caller never reads, is dropped. The caller's decision is the returned `reuse`: recycle or close.
- Parser.Reader.Collect: a token over 1022 characters stops the parse with an overrun, because the code's larger buffer does not take over the old token.
- Building.ParseFile: an include directive stops the parse; opening and parsing the included file is left out, as are the error texts.
- Notation.SourceRun: documents written without includes; leaf text is not blank, and an element around nothing has an attribute (blank and empty leaf text is covered by Notation.TextSourceRun: its value depends on the text before it); the white text of a gap fits the 1022-character buffer with the name before it.
- Locations.MatchSuffix: requires a non-empty extension or an absolute URI; on an empty extension of a relative URI the code does not terminate.
- Locations.CompilePattern: `atoi` is modelled without overflow and the 4096-byte buffers without their limits; platform lower-casing is left out.
- Dispatch.Table.MatchRequest: requires a rewritten URI to fit the 4096-byte buffer it is copied to.
- The list of runners and the list of locations are sequences held in a field, not C arrays and linked cells; each pool is the used part of its fixed array.
- The three sweep loops of `open_connection` share one loop method with a phase parameter; the loop bodies keep their own branches.
- Locks are no-ops outside Windows; each locked region is one atomic step of the state machine.
- `cse_close_sockets`, `cse_open_child` and `jvm_status` add no step that is not there already (draining a pool, a reset at start, open and recycle).
- `cse_init_config`, `cse_init_web_app` and the other readers of the registry are lookups and file access; logging, printing and the HTML of error and status pages have no property worth proving.
- `doc/examples/navigation/WEB-INF/scripts/Navigation.js` is a second copy with a mistyped link; the xsl copy is modelled.
- `score.js`, the Java servlets and beans and the stylesheets are not part of this model.
