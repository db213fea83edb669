# The Docker plugin's transport stack, and the state machines above it

The plugin talks to its host over two stdio pipes. Everything it does rides on that pair:
JSON-RPC in both directions, and any number of flow-controlled byte streams to Docker daemons on
remote machines. This project models that stack and the concurrent code that uses it, and proves
what its comments and tests promise.

| layer | files | source |
|---|---|---|
| byte streams, words, sums, runs | `bytes` `reader` `totals` `runs` `decimals` | `io`, `bufio`, `encoding/binary` as the code uses them |
| frame codec | `codec` | internal/infra/ipc/codec.go |
| multiplexing client | `rpc_client` (objects), `rpc_steps`, `wire_writers` (steps) | internal/infra/ipc/client.go |
| channel bus | `channel_core` (lock sections), `channel` (objects), `bus_steps` (steps) and seven `bus_*` theorem files; `routing` puts client and bus together | internal/infra/chanbus |
| Docker API client | `http_steps` `versions` `hijack` `demux` | internal/infra/dockerapi |
| connection, refresh | `dial_steps` `connection` `debounce` `refresh_order` `node_ids` | internal/usecase, internal/domain |

Code that loops over a reader, a buffer or a field is a method or a class proved against a
specification function (`Parse`, `ServeRead`, `DispatchAll`, ...). Code that is concurrent is a
transition system: each lock section, each `Broadcast`, each RPC made outside a lock and each timer
callback is a step of its own, with any number of goroutines; a theorem `X(run, k)` is about the k-th
state of any run. The channel's class and step relation share their lock sections (`ChannelCore`), so
`Channel.Read` and the `Reading` goroutine of `BusSteps` cannot come apart, and `Connection` shares
those of the dial race with `DialSteps` in the same way. `RpcClient` and `RpcSteps` are two models of
the same methods, over objects and over steps, that share only the text of an id.

## Where the code falls short of its promise, or of its documentation

- `atoi` has no overflow check, so a version component of 2^63 or more is not read as the number it
  spells; `Versions.AtoiExact` gives the exact condition and `Versions.AtoiOverflows` an input. The
  order is a total preorder all the same, because it is an order on what `atoi` returns.
- Request ids repeat once the 64-bit counter has gone round: `RpcSteps.IdTextExact` says exactly when
  two ids are equal, and the correlation theorems are stated below 2^64 calls. The credit counter is
  a 32-bit word, and `BusCredit.CreditConserved` is exact modulo 2^32.
- A grant the transport refuses is ignored and never repeated (channel.go:139-143). `BusWindow.StuckExactly`
  says when that leaves the host out of credit while a Read waits, `BusWindow.StuckForGood` that it
  stays so, and `BusWindow.RefusedGrantsWedge` is a run that gets there.
- An empty data frame is a Read of no bytes, and after a hundred of those in a row with nothing read
  ahead the buffered reader gives up, on a stream that is up. A console's response head is found if
  and only if that does not happen before its last byte (`Hijack.ReadHead`, `Hijack.Patient`);
  `Hijack.StalledHead` is an input on which it is there and not found.
- `do` releases its lock when a read gives up like after any failure, and keeps the connection. From
  then on every caller reads a response that is not its own, or none: `HttpSteps.PairedUntilOneGivesUp`
  is the exact condition, and `HttpSteps.ForeignHead` a run.
- docs/specs/2026-08-05-docker-discovery-design.md:169-173 resolves ids against the last published
  snapshot, gives the Docker id pattern as at most 128 characters without a colon, and promises
  single-flight refreshes. The code resolves against every id the session ever published, allows 191
  characters and the colon (an image id has one), and lets two flushes overlap
  (`Debounce.FlushesOverlap`). The model follows the code.
- After an orderly end of the event stream `followEvents` returns nil and the watcher reconnects
  without a pause; timers it armed still fire, and `Debounce` proves that they finish their work.

## Model

| member | source | states |
|---|---|---|
| ByteStreams.ReadFull | internal/infra/ipc/codec.go:94-98 | what a full read gets, and how it fails, depends on the bytes and on how the stream ends, never on where the reader below cut it |
| Codec.ReadFrame | internal/infra/ipc/codec.go:94-121 | from any stream, however cut: the first frame and exactly the bytes after it, or the error its first bytes call for |
| Codec.WriteFrame | internal/infra/ipc/codec.go:129-148 | a valid frame goes out whole in one write; an invalid one is refused with its reason and writes nothing |
| Codec.Refusal | internal/infra/ipc/codec.go:129-138 | nothing but the invalid frames is refused |
| Codec.HeaderLayout | internal/infra/ipc/codec.go:140-144 | which byte of a printed frame is what: length in bytes 0 to 3, kind in 4, channel in 5 to 8, most significant first, then the payload |
| Codec.ParseDecides | internal/infra/ipc/codec.go:94-121 | what the parser makes of any bytes, from their own values: too short, a kind other than 1 to 3, above 1 MiB, a credit frame not of 8 bytes, in that order, or the frame |
| Codec.ParseOfEncode | internal/infra/ipc/codec.go:94-148 | parsing a printed frame gives it back, and leaves what follows it |
| Codec.EncodeOfParse | internal/infra/ipc/codec.go:94-148 | whatever the parser accepts is byte for byte what the printer emits for the result |
| Codec.ParseAllOfEncodeAll | internal/infra/ipc/codec.go:94-148 | a stream of printed frames reads back as exactly those frames, then ends as the stream ends |
| Codec.EncodeAllOfParseAll | internal/infra/ipc/codec.go:89-121 | any stream is the printing of the frames read from it plus what the parser stopped at; a clean end leaves nothing |
| Codec.CutFrame | internal/infra/ipc/codec.go:91-98 | a frame cut anywhere inside is truncation, never EOF and never a frame |
| Codec.ParseAllThenCut | internal/infra/ipc/codec.go:91-118 | whole frames and then a torn one: the frames, then truncation |
| Codec.Truncation | internal/infra/ipc/codec.go:89-121 | for every cut of every stream: exactly the frames that are whole, then EOF on a boundary and ErrUnexpectedEOF off one |
| Codec.EncodeCredit | internal/infra/ipc/codec.go:151-156 | the eight bytes of a credit payload: the id, then the count, big-endian |
| Codec.DecodeCreditExact | internal/infra/ipc/codec.go:163-176 | a payload decodes to a credit exactly when it is the encoding of that credit for the header's channel and the credit is not zero |
| Codec.DecodeDecides | internal/infra/ipc/codec.go:163-176 | from the payload's own bytes: wrong length, another channel, no credit, in that order, or the credit |
| RpcClient.Client.RegisterPending | internal/infra/ipc/client.go:179-192 | a new id with an empty channel under it, and nothing else changed; refused exactly when closed |
| RpcClient.Client.Resume | internal/infra/ipc/client.go:245-262 | the response fills the channel of the call with its id if that is empty, and touches no other |
| RpcClient.Client.WriteFrame | internal/infra/ipc/client.go:168-177 | one whole frame, or nothing and the reason |
| RpcClient.Client.WriteChannel | internal/infra/ipc/client.go:158-161 | a data frame for that channel; refused as oversize exactly above the frame ceiling |
| RpcClient.Client.GrantCredit | internal/infra/ipc/client.go:163-166 | the frame written is one the other side decodes to the same non-zero credit; never refused by the codec |
| RpcClient.Client.Handle | internal/infra/ipc/client.go:88-103 | each kind goes where it belongs; a malformed control message is dropped, a bad credit frame ends the connection |
| RpcClient.Client.Serve | internal/infra/ipc/client.go:78-105 | over the whole input: frames up to the first bad one are dispatched in wire order, waiting calls get the first response with their id, a clean end is no error, and the client ends closed |
| RpcClient.FilledAppend | internal/infra/ipc/client.go:245-262 | what a call's channel holds after two stretches of traffic is the first answer in both together |
| RpcClient.RequestsReachTheHandler | internal/infra/ipc/client.go:202-219 | over a whole stream: the messages that name a method all go to the handler, in wire order, whatever id they carry; waiting calls are given exactly those that name none and carry an id |
| RpcClient.CallsAreFilledWithReplies | internal/infra/ipc/rpc.go:36-40 | a waiting call ends with the first of the stream's replies that carries its id, and never with a message that names a method |
| RpcClient.RefusedExactly | internal/infra/ipc/client.go:95-99 | a frame ends the connection exactly when it is a credit frame of the wrong length, for another channel, or of no credit |
| Routing.ServeBus | internal/infra/ipc/client.go:78-105 | a whole input stream over any number of channels: each open one accepts exactly the payloads of its own data frames, in wire order, up to the first frame that cannot be read or acted on, and every window grows by the credits sent to it |
| Routing.Route | internal/infra/chanbus/manager.go:86-97 | data and credit in any order reach each channel as if it were the only one |
| Routing.PayloadsOfFrames | internal/infra/ipc/client.go:88-103 | what the read loop hands on for a channel is that channel's own payloads, in wire order |
| RpcSteps.IdTextExact | internal/infra/ipc/client.go:185-186 | two calls have the same id exactly when their counter values agree modulo 2^64 |
| RpcSteps.CallsGetTheirOwn | internal/infra/ipc/client.go:112-143 | in every interleaving, a call that ends with a response has one carrying its own id, just as read; no response ends two calls |
| RpcSteps.PendingIsExact | internal/infra/ipc/client.go:179-198 | ids are not reused; each call between register and forget is in the map under its id, every key is the id of such a call, and no other call's id is a key |
| RpcSteps.FirstAnswerWins | internal/infra/ipc/client.go:187-191 | the first response handled under a registered call's id is never lost and never displaced: until the call leaves the select its channel holds it, or is about to, and a call that is answered ends with it, whatever duplicates and late answers come |
| RpcSteps.ResumeDelivers | internal/infra/ipc/client.go:245-262 | from any reachable state resume runs to its end with no call taking a step; the open call with the id then has a full channel, and every other open call's is as it was |
| RpcSteps.NoCallsAfterClose | internal/infra/ipc/client.go:182-184 | across a run: a closed client stays closed and gives out no id |
| RpcSteps.CallsEndAfterClose | internal/infra/ipc/client.go:132-142 | once the connection is gone every call that has not ended can step, answered or not; every step brings all of them closer to the end; and at the end the pending map is empty |
| RpcSteps.FailuresHaveReasons | internal/infra/ipc/client.go:132-142 | in every reachable state a refused call means a closed client, and a call that ended as closed a connection that is gone |
| RpcSteps.CallSucceeds | internal/infra/ipc/client.go:112-143 | from any reachable state of an open client a call can register, send, be answered, and return that answer, leaving no entry behind |
| WireWriters.OutputIsFrames | internal/infra/ipc/client.go:168-177 | with writes taken byte by byte, the output is whole frames in lock order, and then at most the lock holder's part of one |
| WireWriters.PeerRecoversEveryFrame | internal/infra/ipc/client.go:30-33 | a peer reading at any moment recovers exactly the frames of the calls that succeeded, once each, in lock order |
| WireWriters.ValidFramesGoOut | internal/infra/ipc/client.go:168-177 | on a connection that is up, a call that has returned has put its frame out whole if and only if the frame is valid |
| ChannelCore.ServeReadTakesFront | internal/infra/chanbus/channel.go:120-125 | a Read takes its bytes off the front of the unread ones and leaves the rest in order |
| ChannelCore.ServeReadFillsTheBuffer | internal/infra/chanbus/channel.go:120-125 | a Read returns as much of the front frame as its buffer takes, leaves the rest of it pending, and no other frame is touched |
| ChannelCore.ServeReadKeepsWindow | internal/infra/chanbus/channel.go:127-136 | a frame read to its end is either still counted or granted back, never both and never neither |
| ChannelCore.ChunksCover | internal/infra/chanbus/channel.go:152-158 | Write's chunks carry the buffer exactly, none empty or oversize, in the fewest frames that fit it |
| ChannelCore.ChunksExtend | internal/infra/chanbus/channel.go:154-166 | one turn of the loop sends the next chunk and stops at a chunk boundary again |
| ChannelBus.Channel.Deliver | internal/infra/chanbus/channel.go:65-74 | the frame joins the end of the queue, or is dropped when closed |
| ChannelBus.Channel.AddCredit | internal/infra/chanbus/channel.go:77-82 | the window grows by the grant, in a 32-bit word, closed or not |
| ChannelBus.Channel.CloseRemote | internal/infra/chanbus/channel.go:86-100 | the first close sets the error, with the reason if there is one; any later one changes nothing |
| ChannelBus.Channel.TakeBytes | internal/infra/chanbus/channel.go:120-137 | the buffer's front gets the front of the unread bytes, its tail is untouched, and the credit due is what ServeRead says |
| ChannelBus.Channel.Read | internal/infra/chanbus/channel.go:107-145 | for any buffer, and whatever deliveries, grants, closes and other Reads and Writes come before its lock section or while it sleeps: as many of the next unread bytes as the front frame and the buffer allow, or the close error once all accepted bytes were returned; one grant at most, exactly when due; no longer asleep than its condition |
| ChannelBus.Channel.AwaitCredit | internal/infra/chanbus/channel.go:174-188 | among any others: through exactly when open with credit, and one credit poorer; an error exactly when closed, even with credit left |
| ChannelBus.Channel.Write | internal/infra/chanbus/channel.go:152-168 | among any others: what went out is the chunks of the first `written` bytes, one credit each besides what the others paid; success exactly when that is all of them; a failed send is the next chunk |
| ChannelBus.Channel.Close | internal/infra/chanbus/channel.go:194-206 | the first close forgets the channel and notifies once; a later one does neither |
| ChannelBus.Manager.OpenExec | internal/infra/chanbus/manager.go:55-83 | a fresh channel with the initial window under the host's id, or no change at all |
| ChannelBus.Manager.Deliver | internal/infra/chanbus/manager.go:86-90 | a frame reaches the channel it names and no other |
| ChannelBus.Manager.Credit | internal/infra/chanbus/manager.go:93-97 | a grant reaches the channel it names and no other |
| ChannelBus.Manager.HostClosed | internal/infra/chanbus/manager.go:101-122 | the channel leaves the map and closes with the message, or else the reason; no other is touched |
| ChannelBus.Manager.CloseAll | internal/infra/chanbus/manager.go:125-136 | the map ends empty, every channel closed, and the host is told once of each that was open and of no other |
| BusWindow.WindowConserved | internal/infra/chanbus/channel.go:65-145 | in every reachable state: host credit, frames and grants under way, held frames, and the two ways to lose one, add up to 4 |
| BusWindow.WindowSafety | internal/infra/chanbus/channel.go:102-145 | at most 4 frames queue and `consumed` is at most 1; on an open, registered channel the books add up to 4 less what was refused, and short of four refused credits the host is never out of credit with nothing under way while a Read would block |
| BusWindow.StuckExactly | internal/infra/chanbus/channel.go:139-143 | while a Read would block on an open, registered channel, the host is out of credit with nothing under way if and only if all 4 credits were refused |
| BusWindow.StuckForGood | internal/infra/chanbus/channel.go:139-143 | across a run: after that the host never has credit again and no Read finds a byte |
| BusWindow.RefusedGrantsWedge | internal/infra/chanbus/channel.go:139-143 | a reachable state in which it is |
| BusWakeup.NoLostWakeup | internal/infra/chanbus/channel.go:65-118 | with the locked update and its Broadcast as two steps, a sleeper whose condition came true always has a Broadcast still to come |
| BusWakeup.SleeperCanWake | internal/infra/chanbus/channel.go:174-206 | that Broadcast is enabled, and wakes it |
| BusWakeup.QuiescenceIsHonest | internal/infra/chanbus/channel.go:107-111 | no quiescent state has a reader asleep over data, a writer over credit, or anyone asleep on a closed channel |
| BusWakeup.ClosedCallsEnd | internal/infra/chanbus/channel.go:84-100 | on a closed channel every blocked call wakes and every call ends: one that is not over has a step, or sleeps with an enabled Broadcast that wakes it, and each step of a call lowers the total left |
| BusEffects.ReadServes | internal/infra/chanbus/channel.go:107-145 | a Read with data to hand over returns the front frame's bytes, up to its buffer, by steps of its own that are enabled |
| BusEffects.ReadsReturnWhatTheyTook | internal/infra/chanbus/channel.go:124-144 | each result is returned by the call that took it, as it was taken, and no Read returns anything else |
| BusEffects.WriteSends | internal/infra/chanbus/channel.go:154-166 | a Write with credit on an open channel puts its next chunk on the wire by steps of its own that are enabled |
| BusEffects.WritesEndWithTheClose | internal/infra/chanbus/channel.go:180-184 | a Write that ended with a channel error did so on a closed channel, with the close's error |
| BusEffects.CreditsArrive | internal/infra/chanbus/manager.go:93-97 | on a registered channel the window's total, the credits on the wire and those in the reader's hands are the initial window and all the host ever granted |
| BusEffects.NotesTakeEffect | internal/infra/chanbus/manager.go:110-121 | once a close note was read and no closing goroutine is left, the channel is closed and forgotten; so is what CloseAll forgot |
| BusEffects.ClosingCloses | internal/infra/chanbus/channel.go:86-100 | a close's lock section closes: the first with its own error or the host's reason, a later one changing nothing |
| BusStream.ByteStreamRefinement | internal/infra/chanbus/channel.go:65-145 | for every interleaving of deliveries, closes and Reads of any size: returned, pending and queued bytes are the accepted ones in order |
| BusStream.ReadFailsOnlyAtTheEnd | internal/infra/chanbus/channel.go:112-119 | a Read fails only when closed, with the close's error, all accepted bytes returned |
| BusStream.DataBeforeCloseInOrder | internal/infra/chanbus/manager.go:86-122 | what is accepted is a front of the wire bytes; when the host's close won, it holds everything sent before the close note, though notes have goroutines of their own |
| BusStream.LogSurvivesTheBus | internal/infra/dockerapi/stream.go:42-63 | what Reads returned until one failed parses to exactly the chunks the daemon wrote, and then the channel's own error |
| BusStream.PumpLog | internal/infra/dockerapi/stream.go:42-63 | end to end, as a method: repeated Demux over the very pieces the Reads returned recovers the chunks, however they were cut into frames and those into Reads |
| BusCredit.CreditConserved | internal/infra/chanbus/channel.go:77-82 | credit is what was granted less what was paid, to 32 bits; every payment is a frame sent, a send that failed, or a writer about to send |
| BusCredit.CreditSafety | internal/infra/chanbus/channel.go:152-188 | with any number of Writes, frames sent never exceed those paid for, nor those the credit granted; credit plus payments is all that was granted exactly as long as the difference fits 32 bits |
| BusCredit.CloseIsFinal | internal/infra/chanbus/channel.go:86-100 | across a run: a closed channel stays closed with the same error, and no writer passes awaitCredit any more |
| BusCredit.SentAfterClose | internal/infra/chanbus/channel.go:159-164 | frames sent after a close are at most the writers already past awaitCredit |
| BusWrites.WriteSendsItsBuffer | internal/infra/chanbus/channel.go:147-168 | each of the concurrent Writes: its own frames, in order, are its buffer up to `written`; on success the whole of it in ceil(n / 2^20) frames |
| BusWrites.ChannelFramesAreValid | internal/infra/ipc/codec.go:129-176 | no frame of a channel is ever refused by WriteFrame, and every grant passes DecodeCredit |
| BusClose.ClosesAreBalanced | internal/infra/chanbus/channel.go:190-206 | notifications made and still due are one when a local close won, else none; a closed registered channel has its forgetting to come |
| BusClose.ClosedExactlyOnce | internal/infra/chanbus/manager.go:101-165 | `closed` flips once with its error; the host is told at most once, exactly once when the plugin's close won; a settled closed channel is out of the map |
| Demultiplexer.Demux | internal/infra/dockerapi/stream.go:42-63 | from any stream, however cut: the first chunk and the bytes after it, or the error they call for |
| Demultiplexer.ParseDecides | internal/infra/dockerapi/stream.go:42-63 | what the parser makes of any bytes, from their own values: too short, a stream above 2, above 16 MiB, or the chunk |
| Demultiplexer.DemuxUntilError | internal/infra/dockerapi/stream.go:42-63 | repeated Demux depends on the bytes and not on their cuts |
| Demultiplexer.ParseAllOfEncodeAll | internal/infra/dockerapi/stream.go:36-63 | the chunks the daemon wrote, with any padding bytes, come back exactly |
| Demultiplexer.EncodeOfParse | internal/infra/dockerapi/stream.go:42-63 | what is accepted is an encoding of the result |
| HttpSteps.ResponsesArePaired | internal/infra/dockerapi/client.go:159-212 | as long as no exchange up to the k-th gave up, and also when the stream goes down: the k-th takes its own response's pieces and nobody else does; when it is over they are, in order, all that was written of it, which is the whole of it for every request but the last before the stream went down |
| HttpSteps.StatusDecides | internal/infra/dockerapi/client.go:193-199 | over runs: a caller has a body only after a head below 400, is refused only after one from 400 up, and each such head has that effect |
| HttpSteps.ExchangeSucceeds | internal/infra/dockerapi/client.go:169-212 | from any reachable state with the lock free, the stream up and nobody having given up, a caller can lock, send, be answered, read and close, and leaves the lock free |
| HttpSteps.PairedUntilOneGivesUp | internal/infra/dockerapi/client.go:188-212 | for any interleaving: a piece of a response goes to the caller of its request if and only if no exchange before that caller's gave up on a read |
| HttpSteps.HeadsAreMet | internal/infra/dockerapi/client.go:188-199 | a caller about to read a response is at the head of the answer to its own request if and only if no exchange before it gave up |
| HttpSteps.ForeignHead | internal/infra/dockerapi/client.go:188-192 | a run with the stream up in which a caller is about to read the response to another's request |
| HttpSteps.LockDiscipline | internal/infra/dockerapi/client.go:169-212 | at most one body open; `unlocked` is set exactly when an exchange is over, and the lock was then released exactly once on every path, closing a body again included; no caller, Negotiate included, waits for a lock it holds |
| Versions.ParseAtoi | internal/infra/dockerapi/client.go:299-308 | the leading digits' value in 64-bit arithmetic |
| Versions.AtoiExact | internal/infra/dockerapi/client.go:299-308 | it is the number spelled if and only if that is below 2^63 |
| Versions.AtoiOverflows | internal/infra/dockerapi/client.go:305-305 | a component of 2^64 is read as 0 |
| Versions.SplitOfJoin | internal/infra/dockerapi/client.go:280-280 | the components of a version are exactly what stands between its dots |
| Versions.CompareVersions | internal/infra/dockerapi/client.go:279-297 | the sign says exactly which version comes first by the first differing component, missing ones counting as 0 |
| Versions.TotalPreorder | internal/infra/dockerapi/client.go:278-297 | reflexive, total, transitive, antisymmetric up to equal components, over all strings |
| Versions.Client.Negotiate | internal/infra/dockerapi/client.go:58-81 | the greatest lower bound of the daemon's version and ours, ours when it names none, unchanged on failure |
| Versions.NegotiatedIsGreatest | internal/infra/dockerapi/client.go:73-76 | the branch taken picks the newest version both sides know |
| Decimals.Itoa | internal/infra/dockerapi/stream.go:138-148 | the decimal text that spells n; nothing for a negative n |
| Decimals.DecimalDigits | internal/infra/dockerapi/stream.go:143-146 | the decimal text, digit by digit |
| Hijack.ReadHead | internal/infra/dockerapi/hijack.go:15-19 | a stream with a head gives it up if and only if the reader's patience lasts to the head's last byte; then no byte past it leaves the reader, whatever was read ahead |
| Hijack.HeadsAreText | internal/infra/dockerapi/hijack.go:16-19 | a status line and headers, each line ended by CR LF or by a bare LF, and the empty line are the head of any stream they start, whatever follows |
| Hijack.StalledHead | internal/infra/dockerapi/hijack.go:16-19 | a hundred empty frames and then a head: there is a head and it is not found |
| Hijack.HijackedStream.Read | internal/infra/dockerapi/hijack.go:41-46 | the next bytes of buffered remainder and connection together, in order; an error only when both are used up |
| Hijack.StartExec | internal/infra/dockerapi/stream.go:113-127 | hands over if and only if the head found in time has a status below 400; after a 101, head and stream together are exactly the connection's bytes; after another such status, head, drained body and stream are |
| Hijack.ReadAll | internal/infra/dockerapi/hijack.go:30-46 | reads of any sizes return a front of what was left, nothing lost, doubled or moved |
| Hijack.ConsoleSession | internal/infra/dockerapi/stream.go:98-127 | a whole session over a connection cut anyhow: the head once, then after a 101 every later byte once; it fails exactly without a head, with a refusing one, or with a stall inside or before it |
| DialSteps.OneControlClient | internal/usecase/connection.go:66-101 | closed implies no control client; at most one is ever installed, it stays until the close, and every successful Control returns it; ErrSessionGone implies closed |
| DialSteps.LosersAreClosedOnce | internal/usecase/connection.go:89-98 | every client that was dialled and not installed is closed exactly once, unless its call still holds it or gave it to the owner of a stream; one whose negotiation failed too |
| DialSteps.WinnerIsClosedWithTheConnection | internal/usecase/connection.go:142-152 | the installed client is open while the connection is, and closed exactly once when it has closed |
| DialSteps.ClosedIsFinal | internal/usecase/connection.go:67-71 | across a run: nothing is installed after a close, and no Control call begun after it dials |
| DialSteps.FailuresHaveReasons | internal/usecase/connection.go:66-123 | over runs: no docker only on a closed connection; a gone session exactly for the calls the host denied, and on a closed connection; any other error only after an answer to a dial of the call's own |
| DialSteps.ControlServes | internal/usecase/connection.go:66-101 | from any reachable open state a Control call can end served, with the installed client, or by dialling one that is then in the field |
| DialSteps.Reachable | internal/usecase/connection.go:66-152 | the ownership invariant: every dialled client is held, installed, being closed, or closed |
| Connections.Connection.Resolve | internal/usecase/connection.go:200-220 | succeeds exactly on the instance ids this session published, with the kind and id that build the id again |
| Connections.Connection.Publish | internal/usecase/publish.go:15-22 | every instance row becomes resolvable to the id inside it, and nothing is forgotten |
| Connections.InstanceRowsAre | internal/usecase/publish.go:16-21 | the rows remembered are the instance rows whose id is built from a known kind and a valid Docker id |
| Debounce.NothingIsLost | internal/usecase/events.go:91-141 | in every reachable state: at most one armed timer, matching the variable; a non-empty set has a callback that will take it; each event's branch is waiting or in a flush that took it later; flushes never outnumber events |
| Debounce.EveryEventIsRefreshed | internal/usecase/events.go:95-112 | once callbacks finish, every event's branch and the root have a refresh that began after it |
| Debounce.CallbacksFinish | internal/usecase/events.go:133-138 | no callback is ever stuck, and each step brings all of them closer to the end, stream open or not |
| Debounce.FlushesOverlap | internal/usecase/events.go:133-138 | a reachable state in which two flushes refresh the same branch at once |
| Debounce.EventsAreRecorded | internal/usecase/events.go:126-159 | every event of the four kinds is recorded, pending and timed with its own branch, and no other event does anything |
| RefreshOrder.OrderedBranches | internal/usecase/publish.go:190-206 | a permutation of the input sorted by rank that keeps the order within each rank |
| RefreshOrder.StableSortUnique | internal/usecase/publish.go:204-204 | that determines the result, so any stable sort gives the same |
| RefreshOrder.StableSortPermutes | internal/usecase/publish.go:203-205 | and nothing is lost or doubled |
| RefreshOrder.ParentsFirst | internal/usecase/publish.go:188-189 | no branch comes before one of its ancestors |
| RefreshOrder.AncestorsAre | internal/usecase/publish.go:188-201 | what is above what, for every id the plugin publishes |
| RefreshOrder.RefreshAll | internal/usecase/publish.go:179-186 | a front of that order is refreshed, all of it unless the session goes, and no ancestor after a descendant |
| NodeIds.ParseExact | internal/domain/node.go:62-89 | an id parses to a kind and a Docker id exactly when InstanceID builds it from them and both are valid |
| NodeIds.InstanceIdInjective | internal/domain/node.go:62-64 | different instances have different ids |
| NodeIds.FixedIdsAreNoInstances | internal/domain/node.go:112-125 | no root or group id parses, and ClassOf says instance exactly for ids that parse |
| NodeIds.DaemonIdsAreAccepted | internal/domain/node.go:49-59 | hex ids and sha256 ids make ids that parse back to their parts, for all four kinds |
| NodeIds.DockerIdsAre | internal/domain/node.go:56-59 | a Docker id, character by character: 1 to 191 of them, the first alphanumeric, the others also `_.:-` |

## Left out

- JSON, base64, `net/http` parsing, URL escaping: a message's decoding is a function parameter, and an HTTP response is a head, body bytes and an end. EncodeMessage's 256 KiB ceiling is an error path of Send.
- Contexts, deadlines, clocks: a timeout or a timer firing is a step that may happen at any time.
- Handlers, dialogs, surfaces, menus, status tones, settings, packing, and reconcile's ticker: single-branch plumbing.
- Frames between the `channel.open` response and registration: `lookup` drops them, so `BusSteps` starts at registration.
- Order between JSON-RPC notifications: each has its own goroutine, and nothing here orders them.
- One large Write against another: their chunks may interleave; only each Write's own frames are ordered.
- ChannelBus.Channel.Read: that the others' sections may run out while its condition does not hold is an outcome, as an endless wait has no result; requests that others make are theirs and not in its record.
- ChannelBus.Channel.Write: the same outcome, and the same record.
- BusSteps: one channel of the manager's map, with its own id; several channels with different ids do not touch each other (`ChannelBus.Manager.Deliver` and its neighbours).
- WireWriters.PeerRecoversEveryFrame: a write that the pipe fails part way is not modelled; the code keeps writing after one, and nothing then holds for the peer.
- HttpSteps.PairedUntilOneGivesUp: a read gives up for any reason, a stall or a response it cannot parse; a send fails only when the stream is down, which rests on the channel (`BusCredit.CloseIsFinal`) and on a client that is done staying done. A write to the stdio pipe that fails once and then works is not modelled, nor are body bytes that a later caller could take for a head.
- HttpSteps.LockDiscipline: closes of one body are one after another, as `unlocked` is not guarded.
- RpcSteps.CallsGetTheirOwn: below 2^64 calls; past that ids repeat, and when is `RpcSteps.IdTextExact`.
- Hijack.StartExec: a body that is drained has a length its head gives; a chunked one is not modelled.
- Routing.ServeBus: close notes are requests here, with goroutines of their own; `BusStream.DataBeforeCloseInOrder` is about them.
- Hijack.ReadHead: a header line of blanks only, which the library also takes for the empty line.
- Hijack.HijackedStream.Read: the reader under it returns bytes or an error, not both from one call.
- Debounce: what `refreshBranch` then publishes, and in which order overlapping flushes publish it, so the freshness of the last snapshot is not claimed.
- RefreshOrder.OrderedBranches: `sort.SliceStable` is an insertion sort here; by `RefreshOrder.StableSortUnique` the result is the same.
- DialSteps.LosersAreClosedOnce: clients of `OpenStream` belong to its callers, who may close them as they like.
- Lock fairness and scheduling: progress results say that a step is enabled, not that it is taken.
