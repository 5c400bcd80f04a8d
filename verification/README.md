# A verified model of the Source RCON client, server and gateway cache

The repository implements Valve's Source RCON protocol: a wire codec (`rcon/packet.go`), a client connection
(`rcon/conn.go`, `rcon/auth.go`), a server (`rconserver/`), a retrying client with sessions (`rconclient/`) and an
HTTP gateway that caches sessions (`rconhttp/cache.go`). This project models those parts in Dafny and proves what
holds of whole runs: of client and server joined by two byte streams that may be cut anywhere, of many threads
interleaving on one connection, on one server and on one cache, and of the 64-bit backoff arithmetic.

`dafny verify dfyconfig.toml` checks everything.

| file | what it holds |
|---|---|
| `Wire.dfy` | the frame codec as functions on byte sequences; round trip, uniqueness, behaviour at every cut |
| `Sockets.dfy` | `WriteTo` and `ReadFrom` in place on a socket object, equal to the codec |
| `RequestIds.dfy` | the identifier counter under 32-bit wrap-around |
| `Conn.dfy` | the client connection: a class whose methods equal a specification of `Execute` and `authenticate` |
| `Reassembly.dfy` | what the three reading modes make of any stream of frames, whole or cut |
| `ServerConn.dfy` | `serveConn`, `dispatch`, `writeResponse` and the server's handshake, equal to a function of the decoded frames |
| `EndToEnd.dfy` | client and server composed: every call gets its own command's output, or an error |
| `Handshake.dfy`, `Modes.dfy`, `Mirrors.dfy` | authentication end to end; single, idle and multi mode compared; extra frames after the echo |
| `ConnRace.dfy` | one `Conn` under concurrent `Execute` and `Close`, as a step system over bytes: writes and reads may stop anywhere |
| `ConnReplies.dfy`, `ConnHealth.dfy` | what the callers of such a `Conn` get back, in runs of any length |
| `ConnSolo.dfy` | a call of that step system with no other thread in between comes to exactly what `Conn.Execute` says |
| `TornStreams.dfy`, `ConnTorn.dfy` | what a stop inside a frame or a repeated identifier can do to a later call, as inputs and as runs |
| `ServerLifecycle.dfy`, `ServerOutcomes.dfy`, `ServerState.dfy` | `Serve`, `serveConn`, `Close` and `Shutdown` as a step system, what they come to, and the fields they change as a class |
| `Sessions.dfy` | dialing, sessions, cache entries and `Client.Execute`: conservation of connections |
| `Backoff.dfy` | `ExponentialBackoff` in wrapping 64-bit arithmetic |
| `SessionCache.dfy` | the session cache with its reaper as a step system, and the cache's map as a class |

## How to read the model

- Bytes are integers below 256, a stream is a sequence of bytes followed by an `Ending` (end of stream, deadline, or
  broken). `room` and `budget` say how many bytes of the client's and of the server's stream get through before the
  connection is cut; both are arbitrary. The bufio buffer is an arbitrary function of what is still unread.
- The handler is an arbitrary function of the commands run before and the command: it responds with bytes or panics.
- In `ConnRace` the server's stream is whatever `serveConn` makes of the bytes that reached it, so a torn write or a
  half-read frame has the effect on later calls that it has in the code. `torn` and `spilled` count the bytes of
  frames that failed writes left unfinished and failed reads consumed.
- A run of a step system is any finite sequence of states in which each follows from the one before by one step of
  one thread. A step is one atomic load or store, one acquisition of a mutex, or one section under a mutex; where
  the code works through a set under a mutex, each turn is a step of its own. Fields such as `handed`, `finished`,
  `owner` and `takenBy` only record history.
- Errors are classes (`Eof`, `Net(timeout)`, `Closed`, ...), as the code tells them apart with `errors.Is` and
  `errors.AsType`.

## Assumptions

- Commands and passwords have at most 4096 bytes where an answer is promised: a longer frame is refused by `ReadFrom`
  (`Wire.OverlongIsRefused`, `Handshake.OverlongPasswordGetsNoVerdict`).
- Idle mode agrees with multi mode when the idle timeout falls between two frames. For every other cut
  `Reassembly.IdleCut` states the result: a timeout inside a frame counts as the end of the reply.
- The comment at `rcon/conn.go:228-231` says `drainSourceMirror` never blocks. The code keeps to the buffered bytes
  only when they end between two frames or hold a refused frame size, and reads on otherwise (`Mirrors.DrainStops`
  says where it stops, for any bytes). The model follows the code.
- Identifiers repeat after 2^31-1 calls of `nextID`. Results about stale frames speak of runs in which an identifier
  does not come round again while a reply to it is unread; a connection whose replies were all read needs no such bound.
- After a read or write that stopped inside a frame, a later call on the same `Conn` may return a body that is not its
  own command's output: `ConnTorn.SpilledReadAdmitsForeignBody` and `ConnTorn.TornWriteAdmitsForeignBody` are such runs, and
  `ConnTorn.ReusedIdAdmitsForeignBody` is one for an identifier that repeats too early. `ConnReplies.EveryCallerGetsItsOwnReply` holds as long as every
  failure stopped between two frames, and `ConnHealth.HealthyCallersGetTheirOwnReplies` says what a caller can check:
  no call on this `Conn` has returned a network error, `io.EOF`, `io.ErrUnexpectedEOF` or a refused frame size.
- Commands have less than 2^32-10 bytes, so that the size field of a frame does not wrap.
- Where sessions are to be tracked, no request keeps a cache entry, from `get` to unlock, for longer than the idle
  timeout, and `closeAll` begins with no request in flight, as `rconhttp/handler.go:91-94` asks.
  `SessionCache.SlowRequestLeaksSession` and `SessionCache.RacingCloseLeaksSession` each break one of the two and
  leak a session. That backends share neither entry nor session needs neither.
- Each call of `Serve` brings a listener of its own, and a dialer never returns `ErrClosed` itself.
- Not every error drops a cached session: `ErrResponseTooLong`, `ErrResponseTooShort` and `io.ErrUnexpectedEOF` are not
  connection errors to `isConnError`, and the model keeps the session then, as the code does.

## Model

| member | source | states |
|---|---|---|
| Wire.DecodeEncode | rcon/packet.go:51-92 | for every packet with a body of at most 4096 bytes and any following bytes, decoding its encoding gives the packet and exactly the following bytes |
| Wire.OverlongIsRefused | rcon/packet.go:75-78 | a frame with a longer body is refused as too long and only its size field is consumed |
| Wire.OutOfRangeConsumesFour | rcon/packet.go:75-82 | the too-long and too-short errors occur exactly for declared sizes outside 10..4106, each for its side, and consume four bytes whatever follows |
| Wire.ReencodeIffZeroPadding | rcon/packet.go:51-92 | re-encoding a decoded frame gives the consumed bytes back if and only if its two padding bytes were zero |
| Wire.CutFrameFaults | rcon/packet.go:67-86 | a frame cut at any byte consumes what is there and yields the exact error; io.EOF before the frame and right after the size field, io.ErrUnexpectedEOF at other ends of the stream |
| Wire.ParseEncodeAll | rcon/packet.go:51-92 | the encoding of any legal packet list followed by any bytes parses to that list, then to whatever the bytes hold |
| Wire.EncodingIsUnique | rcon/packet.go:51-92 | two legal packet lists with the same bytes are the same list |
| Wire.WholeFramesMeaning | rcon/packet.go:51-61 | the count of whole frames before a cut: n frames fit exactly when their encoding is no longer than the cut |
| Wire.ParseCut | rcon/packet.go:51-92 | a frame list cut at any byte parses to exactly the frames that arrived whole |
| Wire.ParseReadable | rcon/packet.go:51-92 | frames of any size, cut at any byte, parse to exactly those before the cut and before the first that is too long |
| Wire.ParseFaultMeaning | rcon/packet.go:67-86 | for every byte stream, the error after the last whole frame: a refused size; the timeout; the broken connection; or at the end of the stream io.EOF if 0 or 4 bytes are left and io.ErrUnexpectedEOF otherwise |
| Wire.EncodeLayout | rcon/packet.go:51-61 | the bytes of a frame: size, identifier and type as little-endian digits to base 256, two's complement, then the body and two zero bytes |
| Sockets.Socket.ReadFull | rcon/packet.go:68-71 | takes exactly n bytes, or all there are with the error io.ReadFull returns for that many |
| Sockets.Socket.Write | rcon/packet.go:59-60 | appends the whole buffer, or the part the network takes with an error |
| Sockets.PutUint32At | rcon/packet.go:54-56 | stores four little-endian bytes in place and leaves the rest of the buffer alone |
| Sockets.CopyAt | rcon/packet.go:57 | copies the body in place and leaves the rest of the buffer alone |
| Sockets.StoresAreEncode | rcon/packet.go:52-58 | the four overlapping stores into a zeroed buffer produce the encoding of the packet, padding included |
| Sockets.CountMeaning | rcon/packet.go:67-92 | the reported count is the number of bytes consumed, except that a frame cut short counts only its size field |
| Sockets.WriteTo | rcon/packet.go:51-61 | the in-place stores put exactly the packet's encoding, as far as the network takes it, on the stream |
| Sockets.ReadFrom | rcon/packet.go:67-92 | the result, the bytes left and the reported count are those of the codec, for every input and every ending |
| RequestIds.IdFormula | rcon/conn.go:73-79 | the k-th identifier is (k-1) mod (2^31-1) + 1 under 32-bit wrap-around |
| RequestIds.SameIdIff | rcon/conn.go:73-79 | two issued identifiers are equal exactly when they are a multiple of 2^31-1 calls apart |
| RequestIds.RecentIdsDiffer | rcon/conn.go:73-79 | any 2^31-1 identifiers issued in a row are pairwise distinct |
| RequestIds.EveryPositiveIdIsIssued | rcon/conn.go:73-79 | every positive 32-bit number is the identifier of some call |
| Conn.Connection.NextID | rcon/conn.go:73-79 | the counter moves by the wrap-around step and the new value is returned |
| Conn.Connection.Close | rcon/conn.go:86-89 | flag set, socket closed, nothing written |
| Conn.Connection.ReadSinglePacket | rcon/conn.go:151-161 | result and unread bytes are those of the recursive specification of single mode |
| Conn.Connection.DrainSourceMirror | rcon/conn.go:236-243 | what is left unread is the specification's remainder, for every filling of the buffer |
| Conn.Connection.ReadMultiPacket | rcon/conn.go:168-185 | the accumulating loop equals the recursive specification of multi mode |
| Conn.Connection.ReadIdleDrain | rcon/conn.go:195-219 | the accumulating loop equals the recursive specification of idle mode; on a socket closed locally it fails after at most one frame |
| Conn.Connection.ExecuteCommand | rcon/conn.go:111-149 | the whole new state and the result equal the specification of Execute, in all modes and on all error paths |
| Conn.Connection.Handshake | rcon/auth.go:10-32 | the whole new state and the error equal the specification of the client's handshake, whose meaning Handshake.AuthenticateMeaning and Handshake.VerdictMeaning give |
| ServerConn.ChunksPartition | rconserver/response.go:28-42 | the chunks concatenate to the body; all but the last are full; the last is empty only for an empty body |
| ServerConn.ResponseFramesCarryBody | rconserver/response.go:28-42 | the response frames are legal, carry the request's identifier and together the body; there is one exactly for bodies of at most 4096 bytes |
| ServerConn.ServeIncremental | rconserver/server.go:72-93 | serving two frame lists one after the other is serving their concatenation |
| ServerConn.HandlerRunsInOrder | rconserver/server.go:72-112 | the handler ran on a prefix of the commands received, in order and once each: on all of them unless one panicked, which is then the last one run |
| ServerConn.ServeIsLegal | rconserver/server.go:72-112 | every frame the server emits can be read by a client |
| ServerConn.HandlerRunsOnlyAfterAuth | rconserver/server.go:61-93 | no command runs unless the first frame was an accepted auth request, and only commands after it run |
| ServerConn.WriteResponse | rconserver/response.go:28-42 | the loop writes the encoded response frames as far as the network takes them; it reports an error exactly when not all were taken |
| ServerConn.Dispatch | rconserver/server.go:97-112 | a responding handler's frames are written, a panicking one's nothing; the loop stops exactly on a panic or a failed write |
| ServerConn.Authenticate | rconserver/auth.go:37-57 | nothing is written unless the first frame is an auth request; otherwise the two reply frames; success exactly when the password is accepted and both were taken |
| ServerConn.CommandLoop | rconserver/server.go:72-93 | for every input the bytes written are the encoding of the reply list, as far as the network takes them, and the commands run are its commands |
| ServerConn.ServeConnection | rconserver/server.go:61-93 | for every input stream the bytes emitted are those of the simple specification over the decoded frames, cut where the network stops; the connection ends closed |
| Reassembly.MultiCollects | rcon/conn.go:168-185 | frames of the request are collected in order, however many |
| Reassembly.MultiComplete | rcon/conn.go:168-185 | chunks followed by the echo give exactly the concatenated body, and only draining touches what follows |
| Reassembly.MultiCut | rcon/conn.go:168-185 | cut at any byte: the complete body if the echo arrived whole, else an error; nothing is left unread |
| Reassembly.MultiMeaning | rcon/conn.go:168-185 | for every byte stream whatever: the result is Ok(b) if and only if the frames before the first with the sentinel's identifier all belong to the request and concatenate to b |
| Reassembly.MultiFailure | rcon/conn.go:168-185 | for every byte stream without a result: a mismatch exactly if a foreign frame precedes the echo, else the error after the last whole frame |
| Reassembly.IdleCollects | rcon/conn.go:195-219 | on any packet list the result is the concatenation of exactly the bodies with the request's identifier or -1 |
| Reassembly.IdleMeaning | rcon/conn.go:195-219 | for every byte stream whatever, the result is the bodies of the request among all its frames or the error the read met |
| Reassembly.IdleEndings | rcon/conn.go:195-226 | which of the two, by how the stream ends: a broken connection or a refused size always fails; a timeout completes the reply once a frame came; the end of the stream completes it only with 0 or 4 bytes left, else io.ErrUnexpectedEOF |
| Reassembly.SizeRefusedIff | rcon/packet.go:75-82 | a stream meets a refused size exactly if the four bytes after its whole frames declare one outside 10..4106 |
| Reassembly.IdleCut | rcon/conn.go:195-226 | the exact result for every frame list, foreign frames included, every cut and every ending, timeouts inside a frame included |
| Reassembly.AllBodiesBelong | rcon/conn.go:214-216 | when every frame belongs to the request, nothing is skipped |
| Reassembly.MultiStep | rcon/conn.go:171-183 | one turn of the multi loop on an encoded frame: finish, mismatch or collect |
| Reassembly.IdleStep | rcon/conn.go:204-217 | one turn of the idle loop on an encoded frame |
| Reassembly.SingleStep | rcon/conn.go:151-161 | single mode returns the first frame's body or a mismatch and leaves the rest |
| Reassembly.SingleMeaning | rcon/conn.go:151-161 | for every byte stream: the body of the first whole frame or a mismatch with the rest left unread, or the read error if there is none |
| EndToEnd.FreshIds | rcon/conn.go:131-143 | the sentinel's identifier differs from the request's for every counter value |
| EndToEnd.SendMulti | rcon/conn.go:111-147 | the request and the sentinel go out whole, or the call fails and the stream is used up |
| EndToEnd.AnswerLen | rconserver/response.go:28-42 | the exact number of bytes of a reply with its echo |
| EndToEnd.ReactToRequest | rconserver/server.go:72-112 | the server answers a request and its sentinel with the chunks and the echo, or with nothing when the handler panics |
| EndToEnd.RoundAnswered | rcon/conn.go:111-185 | if the handler responds and the bytes get through, Execute returns exactly its output, of any length, and nothing is left unread |
| EndToEnd.RoundRefused | rcon/conn.go:117-122 | an empty or too long command is refused with its error and changes nothing at either end |
| EndToEnd.ReactToOverlong | rconserver/server.go:76-79 | a command over 4096 bytes gets no reply and ends the server's loop |
| EndToEnd.RoundUnanswered | rcon/conn.go:111-185 | if the command is over 4096 bytes, the handler panics or either stream is cut anywhere earlier, Execute returns an error and the connection is dead |
| EndToEnd.RoundDead | rcon/conn.go:111-185 | a call on a dead connection fails and leaves it dead |
| EndToEnd.EveryCallIsAnsweredOrFails | rcon/conn.go:111-185 | for every sequence of commands, empty and overlong ones included, every handler and every pair of cuts: the first k calls return the refusal or the handler's output for their own commands in order, all others fail; with no cut and no panic the streams end in sync |
| EndToEnd.AnsweredMeaning | rcon/conn.go:111-185 | the first n calls are answered exactly when each is refused, or readable and responded to, and the summed request and reply bytes fit before the cuts |
| EndToEnd.DeadStaysDead | rcon/conn.go:111-185 | after a cut or a panic every later call fails |
| Handshake.VerdictOfAuthFrames | rcon/auth.go:15-31 | the client's verdict on the server's two frames, nothing left unread |
| Handshake.VerdictMeaning | rcon/auth.go:15-31 | for every byte stream: success, ErrAuthFailed and ErrInvalidAuthResponse each exactly from one kind of deciding frame, the first or the one after a leading response value; with no deciding frame the read error |
| Handshake.CutHandshakeGivesNoVerdict | rcon/auth.go:15-24 | a server reply cut anywhere before its last byte gives a read error, never success or ErrAuthFailed |
| Handshake.AuthenticateMeaning | rcon/auth.go:10-32 | for every state and network: the write's error if the request does not fit, else the verdict on what can be read; the request is what was written |
| Handshake.AcceptedExactly | rconserver/auth.go:26-31 | end to end, without an Authenticator exactly the configured password succeeds, with one exactly what it accepts |
| Handshake.AnswerToFirstFrame | rconserver/server.go:61-70 | nothing is answered to a first frame that is not an auth request; a rejected one gets -1 and nothing more; an accepted one is followed by the command loop |
| Handshake.AuthenticationAgrees | rcon/auth.go:10-32 | for every password and counter value the client succeeds exactly when the server accepts, returns ErrAuthFailed exactly when it rejects, and both streams are empty afterwards |
| Handshake.OverlongPasswordGetsNoVerdict | rconserver/auth.go:37-41 | a longer password ends the connection without any reply |
| Handshake.ReactIsIncremental | rconserver/server.go:72-93 | the server's reaction to two batches of frames is its reaction to both at once |
| Modes.SingleReturnsFirstChunk | rcon/conn.go:151-161 | single mode returns the first 4096 bytes; it agrees with multi mode, and leaves the stream in sync, exactly for bodies of at most 4096 bytes |
| Modes.SingleThenMismatch | rcon/conn.go:157-159 | after a longer body the next single-mode call reports a mismatch |
| Modes.IdleAgreesWithMulti | rcon/conn.go:168-219 | idle and multi mode return the same body, of any length |
| Mirrors.DrainsEverything | rcon/conn.go:236-243 | whole buffered frames are all discarded |
| Mirrors.DrainStops | rcon/conn.go:228-243 | for any bytes and any part of them buffered: draining stops exactly at the end of the buffer if that lies between two frames, beyond it if it lies inside a frame, and where the reader fails if it lies past the last whole frame |
| Mirrors.BufferedMirrorsAreHarmless | rcon/conn.go:168-243 | with any buffered frames after each echo, every call of any run returns its own command's output and nothing is left over |
| Mirrors.IssuedIsForeign | rcon/conn.go:73-79 | an identifier issued earlier within the window is none that the next call looks for |
| Mirrors.StaleRound | rcon/conn.go:168-185 | a call that meets an earlier call's frame reports a mismatch and leaves earlier frames behind again |
| Mirrors.StaleForever | rcon/conn.go:168-185 | from then on every call of the run reports a mismatch, never a body |
| Mirrors.LateMirrorPoisonsConnection | rcon/conn.go:228-243 | one mirror frame that is not yet buffered: its call is correct, all later ones report a mismatch |
| ConnRace.StepKept | rcon/conn.go:86-149 | every step of every thread, with writes and reads that may stop at any byte, keeps the invariants over lock, stream, frames and calls |
| ConnRace.RunKeepsInv | rcon/conn.go:86-149 | they hold in every state of every run, however long |
| ConnRace.FramesNeverInterleave | rcon/conn.go:124-147 | in every run the bytes of one call are adjacent on the stream, torn frames included; as long as no write was torn the stream is exactly the whole frames, readable if the command limit is at most 4096 |
| ConnRace.LateCallsAreRefused | rcon/conn.go:86-116 | in every run a call begun after Close set the flag is, in every later state, still at its first check or finished with ErrClosed, and has written nothing |
| ConnRace.LateMeansAfterClose | rcon/conn.go:111-116 | the calls so marked are exactly those that begin once the flag is set |
| ConnRace.CloseIsForGood | rcon/conn.go:86-89 | in every run the flag stays set, and once the socket is closed not one more byte goes out |
| ConnReplies.StreamIsReplies | rconserver/server.go:72-93 | while nothing is torn, the server's bytes are the encoding of its replies to the readable frames that arrived whole |
| ConnReplies.Answering | rconserver/server.go:80-92 | every reply carries the identifier of the very frame that caused it |
| ConnReplies.AroundRequest | rcon/conn.go:131-147 | all the server ever sent beyond the frames before a request is a prefix of that request's answer |
| ConnReplies.StaleIsForeign | rcon/conn.go:168-185 | within the window from the oldest unread reply, a frame left over from an earlier call never passes for the current one |
| ConnReplies.OwnAnswerNext | rcon/conn.go:168-185 | reading on, the accumulated body is the beginning of the own reply; at the echo it is complete, and the echo is the last frame there is |
| ConnReplies.NextDecoded | rcon/packet.go:67-92 | a reader between two frames that sees any number of further bytes gets the next frame or uses up what it saw |
| ConnReplies.StepKept | rcon/conn.go:111-185 | every step that does not stop inside a frame keeps the reader between two frames and its body a part of its own reply |
| ConnReplies.RunKeepsReplies | rcon/conn.go:111-185 | so in every state of every run in which all failures stopped between frames |
| ConnReplies.EveryCallerGetsItsOwnReply | rcon/conn.go:111-149 | in such a run a call that returns a body wrote its command itself, and the body is the handler's output for it after exactly the commands before it on the wire |
| ConnHealth.CaughtUpIsFresh | rcon/conn.go:73-79 | when all replies to earlier calls were read, no unread identifier can come round again |
| ConnHealth.RunKeepsHealth | rcon/conn.go:111-185 | as long as no call returned an I/O error, nothing is torn or spilled and all replies to earlier calls have been read |
| ConnHealth.HealthyCallersGetTheirOwnReplies | rcon/conn.go:111-149 | in a run of any length, as long as no call has returned a network error, io.EOF, io.ErrUnexpectedEOF or a refused frame size, every finished call returned its own command's output, or was refused and has written nothing; no mismatch occurs |
| TornStreams.TornReadGivesForeignBody | rcon/conn.go:168-185 | on any open connection, if the first output contains an echo of the second call's sentinel and the first read times out just before it, the second call returns an empty body whatever its own output |
| TornStreams.TornWriteGivesForeignBody | rcon/conn.go:131-147 | if the first request is cut after nine bytes, the second call can return an empty body although the server never ran its command, for every handler |
| TornStreams.TornRequestParses | rcon/packet.go:67-92 | how a server decodes a torn request followed by a whole one |
| ConnTorn.SendRound | rcon/conn.go:111-147 | from any idle state of a run a call can go on until it waits for its reply |
| ConnTorn.SpilledReadAdmitsForeignBody | rcon/conn.go:111-185 | a run with two calls, nothing torn and four identifiers used, in which one read spilled part of a frame and the other call's body is not its own reply |
| ConnTorn.TornWriteAdmitsForeignBody | rcon/conn.go:111-185 | a run with two calls, nothing spilled and three identifiers used, in which one write was torn and the other call returns a body though its command was never run |
| ConnTorn.ReusedIdAdmitsForeignBody | rcon/conn.go:73-79 | a run with nothing torn or spilled in which identifiers came round again over an unread reply, and a call returns an earlier call's output, of any length |
| ConnSolo.StreamGrows | rconserver/server.go:72-93 | whatever bytes reach the server, more of them only add to what it has written |
| ConnSolo.RunReadsWithin | rcon/conn.go:168-185 | in no run does the client consume more than the server wrote |
| ConnSolo.ReadAll | rcon/conn.go:168-185 | the read steps of one call on any bytes come to the result and the unread rest of the recursive specification of multi mode |
| ConnSolo.WrittenIsSend | rcon/conn.go:131-147 | its write steps leave the bytes, identifiers and error of the specification, wherever the network stops |
| ConnSolo.ExecuteIsARun | rcon/conn.go:111-185 | from any state with mu free a lone call can go through its steps, for any cut of its writes, any arrival at the server and any part of the server's stream seen, and its result, bytes, identifiers, flags and unread rest are exactly those of Execute |
| ServerLifecycle.InvKept | rconserver/server.go:128-268 | every step of every thread keeps the invariants on lock, listeners, connections, closing, contexts and counter |
| ServerLifecycle.RunKeepsInv | rconserver/server.go:128-268 | they hold in every state of every run, for any number of Serve, connection, Close and Shutdown threads |
| ServerLifecycle.NothingSurvivesStop | rconserver/server.go:176-268 | once any Close or Shutdown has finished, in all later states nothing tracked is open, nothing new is tracked, and what is still open sits with a Serve call that is on its way to closing it |
| ServerLifecycle.SealedForever | rconserver/server.go:176-268 | after both closing sections the tracked sets only shrink |
| ServerLifecycle.RefusalAdvances | rconserver/server.go:164-167 | every own step of such a Serve call closes its connection or comes nearer to it, and no other thread sets it back |
| ServerLifecycle.ListenerRefusalAdvances | rconserver/server.go:144-154 | the same of a listener |
| ServerLifecycle.CounterCountsDispatches | rconserver/server.go:97-112 | in every reachable state the counter is the number of dispatches in flight, panics included |
| ServerLifecycle.BeforeIsFixed | rconserver/server.go:216-224 | the dispatches a Shutdown waits for are those counted when its wait began |
| ServerLifecycle.GracefulShutdown | rconserver/server.go:200-232 | when a Shutdown that will return nil comes to closing connections, every dispatch that entered the counter before its wait has written its response, failed or panicked |
| ServerLifecycle.HandedContextsAreCancelled | rconserver/server.go:132-214 | after any cancel step, every context handed to a handler before or later is cancelled, also when Serve's initialisation races with it |
| ServerLifecycle.MilestonesStay | rconserver/server.go:176-232 | the shutdown flag and what stopping has reached are never taken back |
| ServerOutcomes.RunKeepsOutcomes | rconserver/server.go:97-112 | in every run a job under a handler has no outcome yet, one leaving dispatch has the outcome it leaves with, and a failed one belongs to a leaving goroutine |
| ServerOutcomes.LeavingAdvances | rconserver/server.go:83-85 | no other thread touches a leaving goroutine, and every own step brings it nearer to its end |
| ServerOutcomes.FailedDispatchEndsItsConnection | rconserver/server.go:61-112 | in every run, once a dispatch panicked or failed to write, its goroutine only closes and untracks, and serves no other command in any later state |
| ServerOutcomes.GoesOnIffWritten | rconserver/server.go:83-85 | a goroutine goes back to serving exactly if the response was written |
| ServerOutcomes.DoneMeansClosed | rconserver/server.go:62 | in every run a connection whose goroutine is done is closed and untracked |
| ServerOutcomes.RefusedServeReturns | rconserver/server.go:150-167 | in every run a Serve call that was refused, or whose Accept failed, accepts nothing more and only untracks and closes its listener |
| ServerOutcomes.NoConnectionAfterStop | rconserver/server.go:176-232 | in every run no connection is accepted after a Close or Shutdown has finished |
| ServerOutcomes.ErrorMeansTimeout | rconserver/server.go:219-232 | in every run Shutdown returns an error only if its context ended before its wait |
| ServerOutcomes.HandlersSeeCancellation | rconserver/server.go:82-83 | in every run, after any cancel step every handler that runs has a cancelled context |
| ServerState.Server.EnsureContext | rconserver/server.go:132-142 | the section creates a context only if there is none, and is the corresponding step of the system |
| ServerState.Server.TrackConn | rconserver/server.go:238-250 | adding is refused exactly in shutdown, removing never; the set changes by just that connection |
| ServerState.Server.TrackListener | rconserver/server.go:256-268 | the same of listeners |
| ServerState.Server.CloseListeners | rconserver/server.go:183-188 | the loop closes all tracked listeners and no others and returns an error exactly if one of them gave it; it is a run of the system's Close steps |
| ServerState.Server.CloseConns | rconserver/server.go:189-191 | the loop closes all tracked connections and no others; it is a run of the system's Close steps |
| ServerState.Server.Cancel | rconserver/server.go:180-182 | the context is cancelled if there is one |
| ServerState.Server.Close | rconserver/server.go:176-193 | by itself the call is a run of the system's Close from its first step to its last: the flag is set, the context cancelled, all that is tracked closed, and a listener's error returned if there was one |
| Sessions.DialConserves | rconclient/client.go:97-121 | a failed dial, handshake failures included, leaves no connection open; a successful one exactly one |
| Sessions.OneTryConserves | rconclient/client.go:88-95 | a try closes what it opened |
| Sessions.TryOutcome | rconclient/client.go:88-95 | a try returns the error of its dial or the reply to its one command |
| Sessions.TriesConserve | rconclient/client.go:67-84 | so do any number of tries, with one dial and at most one command each |
| Sessions.SessionHoldsOneConnection | rconclient/session.go:33-55 | a session's call opens and closes only its own connections, ends with at most one open, and sends the command at most twice |
| Sessions.SessionNeverHoldsTwo | rconclient/session.go:33-55 | in every state of any sequence of calls, between Close and Dial and inside a failing handshake too, the session has at most one connection open and touches no other |
| Sessions.EntryHoldsOneConnection | rconhttp/cache.go:70-91 | a call on a cache entry leaves no connection open besides the one its session holds |
| Sessions.SessionClosedIff | rconclient/session.go:33-52 | the call returns ErrClosed exactly when the session holds a closed connection |
| Sessions.SessionOutcome | rconclient/session.go:33-52 | success and every error but io.EOF and network errors are returned after one command and no dial; after those two one redial, whose error is returned, or else the second reply, sent on the new connection |
| Sessions.DialOutcomes | rconclient/client.go:97-121 | what a dial returns in its four outcomes |
| Sessions.EntryClosedIff | rconhttp/cache.go:84-89 | so does a call on an entry, which then drops the session |
| Sessions.EntryOutcome | rconhttp/cache.go:70-91 | a failed first dial is the outcome; the session is dropped and its connection closed exactly after io.EOF, ErrClosed, ErrResponseMismatch and network errors, and kept after everything else |
| Sessions.NeverClosedTwice | rconhttp/cache.go:70-91 | in every run of calls on one entry no two in a row return ErrClosed |
| Sessions.OnlyClosedConnsReturnClosed | rcon/conn.go:111-149 | for every mode, command and network, Conn.Execute returns ErrClosed exactly on a closed Conn, which then is unchanged |
| Sessions.Client.Dial | rconclient/client.go:97-121 | a failed dial, by a handshake too, leaves open what was open, a successful one exactly one connection more; the states passed through are recorded |
| Sessions.Client.Send | rcon/conn.go:111-116 | a closed connection refuses without sending, an open one counts one command |
| Sessions.Client.Close | rcon/conn.go:86-89 | the connection is closed, and closing again changes nothing |
| Sessions.Client.ExecuteOnce | rconclient/client.go:88-95 | equals one try of the specification |
| Sessions.Client.Execute | rconclient/client.go:55-86 | between 1 and max(1, attempts) tries, all but the last io.EOF or network errors; it stops at the first success, other error, last attempt or end of the context, and as many connections were closed as opened |
| Sessions.Client.ExecuteOnSession | rconclient/session.go:33-52 | equals the reconnect-once specification, and passes through exactly the states of its trace |
| Sessions.Entry.Execute | rconhttp/cache.go:70-91 | session and connections afterwards equal the lazily dialing, dropping specification |
| Backoff.CapIsExact | rconclient/retry.go:15-26 | if base > 0 and base*max < 2^63, the delay before jitter is min(base*2^(attempt-1), max) for every attempt, although the shift wraps |
| Backoff.ExactIff | rconclient/retry.go:15-26 | for every base > 0 and every max, the delay is exact for all attempts if and only if each binary digit of base that wraps to a positive number leaves one of at least max |
| Backoff.OverflowCanShrinkTheDelay | rconclient/retry.go:20-23 | an input on which the wrapped shift is a small delay far below the cap |
| Backoff.ShiftKeepsLowDigits | rconclient/retry.go:20 | what a wrapping shift leaves of base, digit by digit |
| Backoff.OverflowsIff | rconclient/retry.go:20 | exactly when the exact product would not fit in 63 bits |
| Backoff.WrappedShiftIsMultiple | rconclient/retry.go:20 | a wrapped shift by k that is positive is at least 2^k |
| Backoff.ShiftedOut | rconclient/retry.go:20 | a shift by 64 or more is zero |
| Backoff.CapWithinMax | rconclient/retry.go:21-23 | whatever overflows, the delay before jitter is at most max, and not negative if max is not |
| Backoff.FirstDelay | rconclient/retry.go:17-23 | attempts up to 1 get base, or max if base is not in 1..max |
| Backoff.SafeIff | rconclient/retry.go:21-24 | drawing the jitter cannot panic, for any attempt, if and only if 0 <= max < 2^63-1 |
| Backoff.Delay | rconclient/retry.go:15-26 | the delay lies in [0, cap] and every value there can be drawn; it panics exactly when cap + 1 is not positive in 64 bits |
| SessionCache.ReapSparesRequests | rconhttp/cache.go:114-124 | under the hold bound a reap's cutoff never selects an entry a request has got |
| SessionCache.StepKept | rconhttp/cache.go:55-159 | every step of every thread keeps the invariants on locks, map, requests, sessions and work lists |
| SessionCache.RunKeepsInv | rconhttp/cache.go:55-159 | they hold in every state of every run within the hold bound whose closeAll calls meet no request |
| SessionCache.EverySessionIsTracked | rconhttp/cache.go:55-159 | in every such state each open session is held by an entry that is in the map or on a reap's or closeAll's work list |
| SessionCache.RequestsKeepTheirEntries | rconhttp/cache.go:70-135 | a request's entry stays in the map until it unlocks it |
| SessionCache.NothingOpenAfterClose | rconhttp/cache.go:138-159 | after closeAll, with no later request, once all threads are done no session is open |
| SessionCache.SlowRequestLeaksSession | rconhttp/cache.go:70-135 | for every positive idle timeout a run that breaks only the hold bound and ends with an open session nobody tracks |
| SessionCache.RacingCloseLeaksSession | rconhttp/cache.go:70-159 | a run within the hold bound in which closeAll races with one request, and that ends with an open session nobody tracks |
| SessionCache.RunKeepsStructure | rconhttp/cache.go:55-159 | in every run whatever, each key leads to its own entry and each session belongs to one entry |
| SessionCache.LocksAreReleased | rconhttp/cache.go:71-91 | in every run whatever, an entry's lock is held exactly by the thread that is in the section it guards, on every return path |
| SessionCache.NoLockOutlivesItsThread | rconhttp/cache.go:71-91 | so no entry is ever locked by a thread that is done |
| SessionCache.ReapEvictsExactly | rconhttp/cache.go:114-124 | in every run whatever, a reap takes out exactly the entries not used since one idle timeout before it looked at the clock |
| SessionCache.SessionsAreNotShared | rconhttp/cache.go:70-91 | in every run, slow requests and racing closeAll calls included, two entries never hold the same session |
| SessionCache.CacheKeyInjective | rconhttp/cache.go:49 | with addresses free of NUL, different backends have different keys |
| SessionCache.SameKeyIff | rconhttp/cache.go:49 | for any two backends: one key exactly when they are equal or one address continues the other after a NUL that the other's password repeats |
| SessionCache.NulInAddressCollides | rconhttp/cache.go:49 | two different backends with one key |
| SessionCache.BackendsAreSeparate | rconhttp/cache.go:49-91 | in every run, slow requests and racing closeAll calls included, the map's entries for backends with NUL-free addresses differ and share no session |
| SessionCache.RequestsWorkOnTheirKey | rconhttp/cache.go:55-91 | in every run a request works, until it ends, on an entry made for the key it asked for, evicted or not |
| SessionCache.RequestsAreSeparate | rconhttp/cache.go:49-91 | in every run two requests for different backends with NUL-free addresses never work on one entry nor use one session, entries evicted under them included |
| SessionCache.Cache.Get | rconhttp/cache.go:55-66 | the entry for the key, made if missing and marked used, as a step of the system |
| SessionCache.StaleKeys | rconhttp/cache.go:117-123 | deleting the keys of stale entries deletes exactly the stale entries |
| SessionCache.Cache.TakeStale | rconhttp/cache.go:116-124 | the loop collects exactly the entries older than the cutoff and removes exactly those |
| SessionCache.Cache.TakeAll | rconhttp/cache.go:144-148 | all entries are taken and the map is empty |

## Left out

- `cmd/rcon` and the HTTP plumbing of `rconhttp` (handler, requests, JSON, status codes): each case is one branch.
- Sockets, TCP dialing, deadlines, timers and contexts themselves: they appear as bytes arriving, endings, and parameters.
- `validate()`: its failures return before anything else happens; the model is of a server that passed.
- Frames whose size field itself wraps (bodies of 2^32-10 bytes and more): the encoder wraps the field as the code does, no result speaks of how they are read.
- Constant-time comparison is plain equality; the distribution of the jitter is any value in its range.
- Options, logging, re-exported errors, `internal/fakercon`, documentation and build files.
- Wrapping of errors: an error is its class only.
- Single and idle mode under concurrent callers: `ConnRace` is about multi mode; `Modes` compares the three for one caller.
- ServerState.Server.Close: says what the fields are when no other thread steps in between; interleavings are in `ServerLifecycle`, where Shutdown's loops are modelled too.
- SessionCache.EverySessionIsTracked: a dial, a reconnect and the closing of a session are one step each there; what happens inside them is in `Sessions`.
- Sessions.Client.Execute: the Client's timeout is the end of the context in a pause; a timeout inside a try is an error of that try.
- Fairness and liveness: that a waiting thread is ever scheduled is not claimed; `ServerLifecycle.RefusalAdvances` gives a rank that every own step lowers.
