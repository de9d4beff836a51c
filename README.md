# Connection core and HTTP admission of the game proxy, in Dafny

This project models two parts of the proxy.

**The TCP connection** (`core/zinx/znet/connection.go`) is a class named
`Znet.Connection`. Its fields are the ones the Go struct updates in place:

- the atomic `closed` and `kickOut` flags;
- the property bag;
- `userId` and `lastActivityTime`, the latter on an integer clock;
- registry membership;
- `msgBuffChan`, modelled as a bounded FIFO `buffer` with a `chanClosed` flag.

The socket appears as the unread `inbox` on one side and the `written` frames
on the other. The context is a `cancelled` flag. The finalizer's side effects
are recorded as a `trace` of events.

A ghost invariant `Valid()` holds the class together:

- the buffer never exceeds its capacity;
- the writer takes frames in the order they were queued (`enqueued == dequeued + buffer`);
- the teardown happened at most once, whole and in order;
- the buffer is closed only after `closed` is set, so in this sequential model no send reaches a closed channel.

Every public method requires and keeps `Valid()`. The helper `ReadInbox`
touches only the inbox, the dispatched messages and the activity time, which
the invariant does not constrain.

The reader's framing step is pure (`Framing.ReadFrame`), with the codec's
`Pack`/`UnPack` as arbitrary functions. The whole read loop is specified by
`Framing.DecodeAll`, and the loop method `Znet.ReadFrames` is proved against it.

The writer loop keeps the code's behaviour. Its `break`s after a failed write
and after a closed buffer leave only the `select`, so the loop returns only
once the context is done. One might expect a write error or a closed buffer to
end the loop; it does not. `WriterStep` returns `Returned` exactly when the
context is cancelled and the `ctx.Done()` case is the one taken.

**The HTTP gateway's admission** (`server/hserver/controller/base.go`) is in
module `Controller`. `WrapHandle` is a pure function from:

- the headers;
- the `cast` conversions;
- the connection lookup by user id;
- the business handler.

It returns either a rejection code (1000, 1001, 1005, 1010, 1012 or 1015, in
that order of precedence) or the request the handler was called with, together
with the handler's answer. The `player_id` parse is the loop method
`ParsePlayerIds`, proved equal to the specification `PlayerIds`: the
comma-separated pieces, empty ones dropped, order kept.
`WriteResponseBytes` sets `content-length` to the decimal text of the body's
length.

Shared pieces live in their own modules:

- `Strings`: Go's `strings.Split` with a one-character separator, and `strconv.Itoa`.
- `Types`: byte and fixed-width integer ranges, and `Option`.

## Model

| member | source | states |
|---|---|---|
| Strings.JoinSplit | core/zinx/znet/connection.go:280-287 | joining the pieces of `strings.Split` with the separator gives the original text back |
| Strings.SplitPiecesHaveNoSep | core/zinx/znet/connection.go:280-287 | no piece of a split contains the separator |
| Strings.SplitSingleIffNoSep | core/zinx/znet/connection.go:285-287 | the split has exactly one piece iff the separator does not occur, i.e. the second piece `GetRemotePort` indexes exists iff the address has a ':' |
| Strings.SplitHead | core/zinx/znet/connection.go:280-282 | the first piece is a prefix free of the separator, ending at the end of the text or at a separator |
| Strings.SplitTail | core/zinx/znet/connection.go:285-287 | when the separator occurs, the pieces after the first are the split of the text after the first separator |
| Strings.SplitConcat | server/hserver/controller/base.go:50-54 | the split of `a + sep + b` is the split of `a` followed by the split of `b` |
| Strings.DecimalString | server/hserver/controller/base.go:116 | the text `cast.ToString` gives for a length is canonical decimal |
| Strings.ParseDecimalString | server/hserver/controller/base.go:116 | that decimal text denotes the length it was made from |
| Framing.ReadFrame | core/zinx/znet/connection.go:154-176 | a successful framing step consumes the header plus exactly the announced body (`msgLen - headLen` when `msgLen > headLen`, else none) and nothing more |
| Framing.ReadFrameConsumes | core/zinx/znet/connection.go:154-176 | on success the first `headLen` bytes are what `UnPack` decoded, the body follows them directly, and the remainder is left unread |
| Framing.ReadFrameFailures | core/zinx/znet/connection.go:154-176 | each of short header, unpack error and short body is the outcome exactly when its condition holds |
| Framing.DecodeAllStops | core/zinx/znet/connection.go:145-195 | the read loop stops on an unconsumed suffix of the input, exactly where a framing step fails, with that step's error |
| Framing.ReadWellFormed | core/zinx/znet/connection.go:154-176 | a well-formed frame (accepted header, announced body) is read back as its message and leaves the following bytes untouched |
| Framing.DecodeFlatten | core/zinx/znet/connection.go:145-195 | well-formed frames sent back to back, then an unframeable tail, are dispatched in order, and the loop stops at the tail |
| Framing.TruncatedBody | core/zinx/znet/connection.go:170-174 | a header announcing more body than arrives ends the loop with a short-body read |
| Znet.GetRemoteIP | core/zinx/znet/connection.go:280-282 | the result is the prefix of the address up to its first ':' (the whole address when there is none) |
| Znet.GetRemotePort | core/zinx/znet/connection.go:285-287 | defined (no index panic) iff the address contains ':'; then it is the text between the first ':' and the next ':' or the end |
| Znet.SecondPiece | core/zinx/znet/connection.go:285-287 | with a ':' present, the second split piece sits right after the first ':' and stops at the next ':' or the end |
| Znet.ReadFrames | core/zinx/znet/connection.go:145-195 | the read loop dispatches exactly the messages of `DecodeAll`, in order, leaves its remainder unread, and moves the activity time to `now` iff a frame arrived and a heartbeat checker is attached |
| Znet.Connection.constructor | core/zinx/znet/connection.go:67-93 | a new connection is open, not kicked, registered, with an empty property bag and buffer |
| Znet.Connection.IsClosed | core/zinx/znet/connection.go:535-537 | an open connection still has its socket, its buffer and its registry entry, and has not been torn down; a closed one is never alive |
| Znet.Connection.GetKickOut | core/zinx/znet/connection.go:530-532 | the kick-out flag is always 0 or 1 |
| Znet.Connection.SetClose | core/zinx/znet/connection.go:540-542 | compare-and-swap: returns true exactly when `closed` was false, and `closed` is true afterwards |
| Znet.Connection.SetKickOut | core/zinx/znet/connection.go:525-527 | compare-and-swap: returns true exactly when `kickOut` was 0, and it is 1 afterwards |
| Znet.Connection.IsAlive | core/zinx/znet/connection.go:501-508 | false when closed; otherwise true iff less than the maximum duration has passed since the last activity |
| Znet.Connection.UpdateActivity | core/zinx/znet/connection.go:510-512 | the activity time becomes `now`, so an open connection is alive for any positive duration |
| Znet.Connection.Start | core/zinx/znet/connection.go:200-238 | a fresh context; with a heartbeat checker the activity time is set before the checker starts, so the connection is alive at that moment |
| Znet.Connection.Stop | core/zinx/znet/connection.go:241-243 | cancels the context |
| Znet.Connection.Finalizer | core/zinx/znet/connection.go:419-451 | the first run tears down in order (heartbeat stop if any, socket close, registry removal, buffer close, stop hook if any); a run once closed changes nothing; afterwards the connection is closed and never alive |
| Znet.Connection.SendMsg | core/zinx/znet/connection.go:290-310 | closed: error, nothing written; pack error: error, nothing written; otherwise the packed frame is written, or the write error is returned |
| Znet.Connection.SendBuffMsg | core/zinx/znet/connection.go:313-342 | closed: error, queue unchanged; pack error: error, queue unchanged; room in the queue: packed frame appended at the end; full: timeout error, queue unchanged |
| Znet.Connection.SendByteMsg | core/zinx/znet/connection.go:345-364 | as `SendBuffMsg`, enqueueing the bytes unpacked and reporting a closed connection with the same error |
| Znet.Connection.WriterStep | core/zinx/znet/connection.go:96-129 | returns exactly when the context is cancelled and `ctx.Done()` is chosen, or nothing else is ready; otherwise it writes the oldest queued frame, or fails to write it and still dequeues it, or finds the buffer closed, or blocks on an empty open buffer, each exactly under its condition; neither a failed write nor a closed buffer ends the loop |
| Znet.Connection.StartReader | core/zinx/znet/connection.go:132-197 | unless already cancelled, dispatches every frame the loop reads (as `ReadFrames` states) and then cancels the context through the deferred `Stop` |
| Znet.Connection.ReadInbox | core/zinx/znet/connection.go:145-195 | the inbox, the dispatched messages and the activity time after the read loop are those `DecodeAll` determines |
| Znet.Connection.GetProperty | core/zinx/znet/connection.go:375-380 | a missing key reads as nil, a present one as its stored value; `SetProperty` and `RemoveProperty` state what it returns after each |
| Znet.Connection.SetProperty | core/zinx/znet/connection.go:367-372 | `GetProperty(key)` returns the new value, and so does `Value(key)` for a key other than "user_id" and "client_ip"; every other key is unchanged |
| Znet.Connection.RemoveProperty | core/zinx/znet/connection.go:383-388 | `GetProperty(key)` is nil afterwards, and so is `Value(key)` for a key other than "user_id" and "client_ip"; every other key is unchanged |
| Znet.Connection.GetProxyId | core/zinx/znet/connection.go:399-401 | 0 when no proxy id is stored, the stored uint32 otherwise |
| Znet.Connection.SetProxyId | core/zinx/znet/connection.go:396-398 | stored under "proxy_id"; `GetProxyId` and `Value("proxy_id")` read it back and the server id is unchanged |
| Znet.Connection.GetServerId | core/zinx/znet/connection.go:407-409 | 0 when no server id is stored, the stored uint32 otherwise |
| Znet.Connection.SetServerId | core/zinx/znet/connection.go:404-406 | stored under "server_id"; `GetServerId` and `Value("server_id")` read it back and the proxy id is unchanged |
| Znet.Connection.SetUserId | core/zinx/znet/connection.go:412-414 | the user id becomes the given one, and `Value("user_id")` returns it |
| Znet.Connection.Value | core/zinx/znet/connection.go:469-480 | "user_id" gives the user id, "client_ip" the remote IP, any other key the property; the setters above state what it returns after each update |
| Controller.ParsePlayerIds | server/hserver/controller/base.go:48-54 | the loop's list equals `PlayerIds`: non-empty comma-separated pieces, converted, in order |
| Controller.PlayerIdsConcat | server/hserver/controller/base.go:50-54 | a comma separates players: the list of `a,b` is the list of `a` followed by the list of `b` |
| Controller.PlayerIdsSingle | server/hserver/controller/base.go:50-54 | text without a comma is one player, or none when empty |
| Controller.PlayerIdsEmptyIff | server/hserver/controller/base.go:49-58 | no player is left (code 1001) exactly when the header holds nothing but commas |
| Controller.WrapHandle | server/hserver/controller/base.go:16-106 | the handler is called iff every parameter is present, at least one player remains, and the user id is 0 or names a connection with matching proxy, server and user; each rejection code holds exactly when its check is the first to fail; the admitted request carries the players, the user id, the connection (nil for user id 0) and the trace id |
| Controller.RejectionSkipsHandler | server/hserver/controller/base.go:43-80 | a rejected request does not depend on the handler, which is never called |
| Controller.GuestSkipsLookup | server/hserver/controller/base.go:60-82 | with user id 0 the outcome does not depend on the connection lookup, and the handler is called iff the header checks pass |
| Controller.Reply | server/hserver/controller/base.go:44-104 | a rejection writes only its code, with no log type and no message; an admitted request writes the handler's response |
| Controller.WrittenResponse | server/hserver/controller/base.go:44-104 | for a request that is not admissible the written response is a bare admission code; for an admissible one it is what the handler returned for the admitted request |
| Controller.WriteResponseBytes | server/hserver/controller/base.go:115-119 | the body is the data and `content-length` is canonical decimal text denoting its length |
| Controller.WriteResponseData | server/hserver/controller/base.go:108-113 | the body is the marshalled response and `content-length` denotes its length |
| Controller.Serve | server/hserver/controller/base.go:96-113 | the wrapped handler writes the marshalled response of the admission outcome, with its length as `content-length` |

## Left out

- The race between a buffered send and the finalizer is not modelled. `SendBuffMsg` and `SendByteMsg` check `isClosed` and then block in their `select`. If `finalizer` closes `msgBuffChan` meanwhile, the send on the closed channel panics, and those methods have no `recover`. The model runs each method whole, so its invariant that the buffer is closed only once the connection is closed rules this out.
- Goroutines, the `select` between channels, the 5 ms send timer and the heartbeat checker's own timer are not modelled; one step of each loop is a method call. Concurrency and interleavings are not modelled.
- Socket I/O, read and write deadlines, and `io.ReadFull`: reads consume the `inbox` bytes, and writes append to `written` or fail as a parameter says.
- The codec's byte layout: `Pack` and `UnPack` are arbitrary functions with a fixed header length.
- Znet.ReadFrames: requires a header length above zero. With an empty header the source loop behaves in three ways. If `UnPack` fails, the loop returns at once. If the header announces a body, each pass consumes that body. If `UnPack` announces a `msgLen` of 0, every pass consumes nothing and dispatches an empty message, so the loop never ends.
- Znet.ToUint32: a text value converts to 0 here, while `cast` parses decimal text. The setters only store `uint32` values.
- Znet.Connection.Value: keys are strings. A non-string key, which the source turns into text with `cast.ToString`, is not modelled.
- Znet.Connection.SendBuffMsg: a full buffer always times out. A writer that drains a slot within the 5 ms is a scheduling effect and is not modelled. A capacity of 0 (an unbuffered channel) therefore always times out.
- Znet.Connection.Start: requires a connection not yet started. Calling it twice in the source makes a second context. The `onConnStart` hook, the spawning of both loops and the blocking `select` are not modelled; `Finalizer` is the part that runs after it.
- Znet.Connection.Stop: requires a started connection, since before `Start` there is no cancel function and the source would dereference nil.
- Znet.Connection.Finalizer: requires the context to be cancelled, since its one caller is `Start` after `ctx.Done()`. The connection manager is always present, because `NewConnection` already calls `Add` on it, so registry removal always happens.
- `SetHeartBeat`/`GetHeartBeat`: whether a heartbeat checker is attached is fixed at construction.
- Also not modelled: `GetCreateTime`, `Context`, `Deadline`, `Done`, `Err`, and the plain getters of the server, socket, manager, handler and addresses.
- Dispatch (`SendMsgToTaskQueue` or `DoMsgHandler`), `GenTraceID` and the buffer pool: a dispatched message is appended to `dispatched`, without a trace id.
- All logging, `recover` and the stack dumps.
- Header lookup is by exact key; Go's canonicalisation of header names is not modelled.
- `json.Marshal` is a parameter. The response's `Data` field and the request's `Data` map are not modelled. The `client_ip` header is only checked for presence and is otherwise used in logs only.
- `server/tserver/handler/test.go`, a demo handler, is not part of this model.
