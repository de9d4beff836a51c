/**
  The per-connection state machine of core/zinx/znet/connection.go.
  Goroutines, channels and the context are taken one step at a time: the
  context is the `cancelled` flag, `msgBuffChan` is a bounded FIFO `buffer`
  with a `chanClosed` flag, the socket is the unread `inbox` on one side and
  the `written` trace on the other, and the registry is one membership flag.
 */
module Znet {
  import opened Types
  import opened Strings
  import opened Framing

  /** A property value (Go `any`): the kinds the model tells apart. `Opaque`
      stands for a value of a type `cast` does not convert. */
  datatype Any = Nil | U32(u32: Uint32) | U64(u64: Uint64) | Text(text: string) | Opaque(tag: int)

  /** `cast.ToUint32` on a property value: nil converts to 0, a uint32 to
      itself, a uint64 is truncated to its low 32 bits. */
  function ToUint32(a: Any): Uint32
  {
    match a
    case Nil => 0
    case U32(n) => n
    case U64(n) => n % 0x1_0000_0000
    case Text(_) => 0
    case Opaque(_) => 0
  }

  /** `GetRemoteIP`: the part of the address before the first ':'. */
  function GetRemoteIP(addr: string): (ip: string)
    ensures ip <= addr && ':' !in ip
    ensures |ip| == |addr| || addr[|ip|] == ':'
  {
    SplitHead(addr, ':');
    Split(addr, ':')[0]
  }

  /** `GetRemotePort`: the part between the first and the second ':'. Go
      indexes the second piece of the split, which panics when the address
      has no ':' at all; that is `None` here. */
  function GetRemotePort(addr: string): (port: Option<string>)
    ensures port.Some? <==> ':' in addr
    ensures port.Some? ==>
      var ip := GetRemoteIP(addr);
      var end := |ip| + 1 + |port.value|;
      && end <= |addr|
      && addr[..end] == ip + ":" + port.value
      && ':' !in port.value
      && (end == |addr| || addr[end] == ':')
  {
    SplitSingleIffNoSep(addr, ':');
    if ':' !in addr then None
    else
      SecondPiece(addr);
      Some(Split(addr, ':')[1])
  }

  /** Where the second piece of the split lies in an address with a ':'. */
  lemma SecondPiece(addr: string)
    requires ':' in addr
    ensures |Split(addr, ':')| >= 2
    ensures var pieces := Split(addr, ':');
      var end := |pieces[0]| + 1 + |pieces[1]|;
      && end <= |addr|
      && addr[..end] == pieces[0] + ":" + pieces[1]
      && ':' !in pieces[1]
      && (end == |addr| || addr[end] == ':')
  {
    var pieces := Split(addr, ':');
    SplitHead(addr, ':');
    SplitTail(addr, ':');
    var rest := addr[|pieces[0]| + 1..];
    SplitHead(rest, ':');
    assert pieces[1] == Split(rest, ':')[0];
    PieceAfterColon(addr, pieces[0], pieces[1]);
  }

  /** Text `ip` up to a ':' and a prefix `port` of what follows make up the
      start of `addr`. */
  lemma PieceAfterColon(addr: string, ip: string, port: string)
    requires ip <= addr && |ip| < |addr| && addr[|ip|] == ':'
    requires port <= addr[|ip| + 1..]
    ensures |ip| + 1 + |port| <= |addr|
    ensures addr[..|ip| + 1 + |port|] == ip + ":" + port
    ensures |ip| + 1 + |port| < |addr| ==> addr[|ip| + 1 + |port|] == addr[|ip| + 1..][|port|]
  {
    assert addr == addr[..|ip|] + [addr[|ip|]] + addr[|ip| + 1..];
  }

  /** What the finalizer does, as events in the order it does them. */
  datatype Event = HeartbeatStop | SocketClose | RegistryRemove | ChanClose | StopHook

  /** The finalizer's teardown: stop the heartbeat checker (when there is
      one), close the socket, leave the registry, close the buffer, call the
      stop hook (when there is one). */
  function Teardown(hasHeartbeat: bool, hasStopHook: bool): seq<Event>
  {
    match (hasHeartbeat, hasStopHook)
    case (true, true) => [HeartbeatStop, SocketClose, RegistryRemove, ChanClose, StopHook]
    case (true, false) => [HeartbeatStop, SocketClose, RegistryRemove, ChanClose]
    case (false, true) => [SocketClose, RegistryRemove, ChanClose, StopHook]
    case (false, false) => [SocketClose, RegistryRemove, ChanClose]
  }

  /** The errors the send methods return. Both buffered sends report a closed
      connection with the same text ("connection closed when send buff msg"). */
  datatype SendError = ClosedWhenSendMsg | ClosedWhenSendBuffMsg | PackError | SendBuffMsgTimeout | WriteError

  /** What one pass of the writer loop's `select` did. Only `Returned` leaves
      the loop: the `break`s after a failed write and after a closed buffer
      leave the `select`, not the `for`. */
  datatype WriterOutcome = Returned | Wrote | WriteFailed | BufferClosed | Blocked

  /** The loop of `StartReader`: frame messages off the unread bytes `input`
      until a framing step fails. It returns the messages to dispatch in
      order, the bytes left at the failing step, and the activity time, which
      moves from `since` to `now` with every frame when a heartbeat checker is
      attached. */
  method ReadFrames(codec: Codec, input: Bytes, heartbeat: bool, since: int, now: int)
    returns (got: seq<Message>, rest: Bytes, last: int)
    requires codec.headLen > 0
    ensures got == DecodeAll(codec, input).msgs && rest == DecodeAll(codec, input).rest
    ensures last == if heartbeat && |got| > 0 then now else since
  {
    ghost var d := DecodeAll(codec, input);
    rest, got, last := input, [], since;
    var r := ReadFrame(codec, rest);
    while r.Frame?
      invariant r == ReadFrame(codec, rest) && Resumes(codec, d, got, rest)
      invariant last == if heartbeat && |got| > 0 then now else since
      decreases |rest|
    {
      ResumesAfterFrame(codec, d, got, rest);
      rest, got := r.rest, got + [r.msg];
      if heartbeat {
        last := now;
      }
      r := ReadFrame(codec, rest);
    }
    ResumesAtFailure(codec, d, got, rest);
  }

  class Connection {
    /** Session id, fixed at construction. */
    const connId: Uint64
    /** `remoteAddr.String()`. */
    const remoteAddr: string
    /** `MaxMsgChanLen`, the capacity of `msgBuffChan`. */
    const capacity: nat
    /** Whether a heartbeat checker `hc` is attached. */
    const hasHeartbeat: bool
    /** Whether the server set an `onConnStop` hook. */
    const hasStopHook: bool

    /** `Start` has created the context. */
    var started: bool
    /** The context has been cancelled (`Stop`). */
    var cancelled: bool
    /** The atomic `closed` flag. */
    var closed: bool
    /** The atomic `kickOut` flag: 0 not kicked, 1 kicked. */
    var kickOut: Int32
    /** The mutex-guarded property bag. */
    var property: map<string, Any>
    var userId: Uint64
    /** `lastActivityTime` on an integer clock. */
    var lastActivityTime: int
    var heartbeatRunning: bool
    /** Present in the connection manager. */
    var registered: bool
    /** The frames queued in `msgBuffChan`, oldest first. */
    var buffer: seq<Bytes>
    var chanClosed: bool
    var socketClosed: bool
    /** Everything written to the socket, in order. */
    var written: seq<Bytes>
    /** The bytes the peer has sent and the reader has not consumed yet. */
    var inbox: Bytes
    /** The messages handed to the dispatch boundary, in order. */
    var dispatched: seq<Message>
    /** The teardown effects performed so far. */
    var trace: seq<Event>

    /** Every frame ever queued, and every frame the writer took off the queue. */
    ghost var enqueued: seq<Bytes>
    ghost var dequeued: seq<Bytes>

    /** One run of the reader over `input`: every complete frame is
        dispatched in order, the unread tail stays in the inbox, and the
        activity time moves to `now` when a frame arrived and a heartbeat
        checker is attached. */
    ghost predicate ReaderRan(codec: Codec, input: Bytes, before: seq<Message>, since: int, now: int,
                              rest: Bytes, after: seq<Message>, last: int)
      requires codec.headLen > 0
    {
      var d := DecodeAll(codec, input);
      after == before + d.msgs && rest == d.rest
      && last == if hasHeartbeat && d.msgs != [] then now else since
    }

    ghost predicate Valid()
      reads this
    {
      QueueInv() && KickInv() && TraceInv() && TeardownInv()
    }

    /** The buffer never exceeds its capacity and is a FIFO: the writer takes
        frames in the order they were queued. */
    ghost predicate QueueInv()
      reads this`buffer, this`enqueued, this`dequeued
    {
      |buffer| <= capacity && enqueued == dequeued + buffer
    }

    ghost predicate KickInv()
      reads this`kickOut
    {
      kickOut == 0 || kickOut == 1
    }

    /** The teardown happened at most once, whole and in order. */
    ghost predicate TraceInv()
      reads this`trace, this`socketClosed
    {
      && (trace == [] || trace == Teardown(hasHeartbeat, hasStopHook))
      && (trace != [] <==> socketClosed)
    }

    /** The buffer is closed and the registry left only together with the
        socket, and only once the connection is closed and cancelled, so no
        send reaches a closed channel. */
    ghost predicate TeardownInv()
      reads this`socketClosed, this`chanClosed, this`registered, this`closed
      reads this`cancelled, this`started, this`heartbeatRunning
    {
      && (socketClosed <==> chanClosed)
      && (socketClosed <==> !registered)
      && (socketClosed ==> closed && cancelled && !heartbeatRunning)
      && (heartbeatRunning ==> hasHeartbeat && started)
      && (cancelled ==> started)
    }

    /** `NewConnection`: open, not kicked, empty property bag and buffer, and
        added to the connection manager. `inbox` is what the peer will send. */
    constructor (connId: Uint64, remoteAddr: string, capacity: nat, hasHeartbeat: bool, hasStopHook: bool, inbox: Bytes)
      ensures Valid()
      ensures this.connId == connId && this.remoteAddr == remoteAddr && this.capacity == capacity
      ensures this.hasHeartbeat == hasHeartbeat && this.hasStopHook == hasStopHook && this.inbox == inbox
      ensures !started && !cancelled && !closed && kickOut == 0 && property == map[] && userId == 0
      ensures registered && buffer == [] && !chanClosed && !socketClosed && !heartbeatRunning
      ensures written == [] && dispatched == [] && trace == []
    {
      this.connId := connId;
      this.remoteAddr := remoteAddr;
      this.capacity := capacity;
      this.hasHeartbeat := hasHeartbeat;
      this.hasStopHook := hasStopHook;
      this.inbox := inbox;
      started, cancelled, closed, kickOut := false, false, false, 0;
      property, userId, lastActivityTime, heartbeatRunning := map[], 0, 0, false;
      registered, buffer, chanClosed, socketClosed := true, [], false, false;
      written, dispatched, trace := [], [], [];
      enqueued, dequeued := [], [];
    }

    /** `isClosed`. */
    function IsClosed(): (c: bool)
      reads this
      requires Valid()
      ensures !c ==> !chanClosed && !socketClosed && registered && trace == []
      ensures c ==> forall now, maxDur :: !IsAlive(now, maxDur)
    {
      closed
    }

    /** `setClose`: compare-and-swap of `closed` from false to true. */
    method SetClose() returns (swapped: bool)
      requires Valid()
      modifies this`closed
      ensures Valid()
      ensures swapped == !old(closed)
      ensures IsClosed()
    {
      swapped := !closed;
      closed := true;
    }

    /** `GetKickOut`. */
    function GetKickOut(): (k: Int32)
      reads this
      requires Valid()
      ensures k == 0 || k == 1
    {
      kickOut
    }

    /** `SetKickOut`: compare-and-swap of `kickOut` from 0 to 1. */
    method SetKickOut() returns (swapped: bool)
      requires Valid()
      modifies this`kickOut
      ensures Valid()
      ensures swapped == (old(GetKickOut()) == 0)
      ensures GetKickOut() == 1
    {
      swapped := kickOut == 0;
      kickOut := 1;
    }

    /** `IsAlive`: not closed, and the last activity lies less than `maxDur`
        before `now`. */
    function IsAlive(now: int, maxDur: int): (alive: bool)
      reads this
      ensures alive ==> !closed
      ensures !closed ==> (alive <==> now < lastActivityTime + maxDur)
    {
      !closed && now - lastActivityTime < maxDur
    }

    /** `updateActivity`. */
    method UpdateActivity(now: int)
      requires Valid()
      modifies this`lastActivityTime
      ensures Valid()
      ensures lastActivityTime == now
      ensures forall maxDur :: !closed && maxDur > 0 ==> IsAlive(now, maxDur)
    {
      lastActivityTime := now;
    }

    /** `Start` up to its blocking `select`: a fresh context, and the activity
        time set before the heartbeat checker starts, so the connection is
        alive when the checker first looks. The reader and writer loops are
        `StartReader` and `WriterStep`; the rest of `Start` is `Finalizer`. */
    method Start(now: int)
      requires Valid() && !started
      modifies this`started, this`cancelled, this`lastActivityTime, this`heartbeatRunning
      ensures Valid()
      ensures started && !cancelled
      ensures heartbeatRunning == hasHeartbeat
      ensures lastActivityTime == if hasHeartbeat then now else old(lastActivityTime)
      ensures forall maxDur :: hasHeartbeat && !closed && maxDur > 0 ==> IsAlive(now, maxDur)
    {
      started, cancelled := true, false;
      if hasHeartbeat {
        UpdateActivity(now);
        heartbeatRunning := true;
      }
    }

    /** `Stop`: cancel the context. Before `Start` there is no cancel function
        to call, so the connection must have been started. */
    method Stop()
      requires Valid() && started
      modifies this`cancelled
      ensures Valid()
      ensures cancelled
    {
      cancelled := true;
    }

    /** `finalizer`, run by `Start` once the context is done. The first call
        performs the whole teardown in order; any later call, or any call once
        `closed` is set, does nothing. */
    method Finalizer()
      requires Valid() && cancelled
      modifies this`closed, this`heartbeatRunning, this`socketClosed, this`registered, this`chanClosed, this`trace
      ensures Valid()
      ensures old(closed) ==> unchanged(this)
      ensures !old(closed) ==>
        && trace == old(trace) + Teardown(hasHeartbeat, hasStopHook)
        && socketClosed && chanClosed && !registered && !heartbeatRunning
      ensures closed && forall now, maxDur :: !IsAlive(now, maxDur)
    {
      if IsClosed() {
        return;
      }
      var swapped := SetClose();
      if swapped {
        var events := [];
        if hasHeartbeat {
          heartbeatRunning := false;
          events := events + [HeartbeatStop];
        }
        socketClosed := true;
        events := events + [SocketClose];
        registered := false;
        events := events + [RegistryRemove];
        chanClosed := true;
        events := events + [ChanClose];
        if hasStopHook {
          events := events + [StopHook];
        }
        assert events == Teardown(hasHeartbeat, hasStopHook);
        trace := trace + events;
      }
    }

    /** `SendMsg`: pack and write straight to the socket. `writeOk` is whether
        the socket write succeeds. */
    method SendMsg(codec: Codec, msgId: Uint32, data: Bytes, writeOk: bool) returns (err: Option<SendError>)
      requires Valid()
      modifies this`written
      ensures Valid()
      ensures old(closed) ==> err == Some(ClosedWhenSendMsg) && written == old(written)
      ensures !closed && codec.pack(msgId, data).None? ==> err == Some(PackError) && written == old(written)
      ensures !closed && codec.pack(msgId, data).Some? ==>
        if writeOk then err == None && written == old(written) + [codec.pack(msgId, data).value]
        else err == Some(WriteError) && written == old(written)
    {
      if IsClosed() {
        return Some(ClosedWhenSendMsg);
      }
      var packed := codec.pack(msgId, data);
      if packed.None? {
        return Some(PackError);
      }
      if writeOk {
        written := written + [packed.value];
        err := None;
      } else {
        err := Some(WriteError);
      }
    }

    /** `SendBuffMsg`: pack and queue for the writer. A full buffer stands for
        a buffer that stays full for the 5 ms timeout. */
    method SendBuffMsg(codec: Codec, msgId: Uint32, data: Bytes) returns (err: Option<SendError>)
      requires Valid()
      modifies this`buffer, this`enqueued
      ensures Valid()
      ensures old(closed) ==> err == Some(ClosedWhenSendBuffMsg) && buffer == old(buffer)
      ensures !closed && codec.pack(msgId, data).None? ==> err == Some(PackError) && buffer == old(buffer)
      ensures !closed && codec.pack(msgId, data).Some? ==>
        if |old(buffer)| < capacity then err == None && buffer == old(buffer) + [codec.pack(msgId, data).value]
        else err == Some(SendBuffMsgTimeout) && buffer == old(buffer)
    {
      if IsClosed() {
        return Some(ClosedWhenSendBuffMsg);
      }
      var packed := codec.pack(msgId, data);
      if packed.None? {
        return Some(PackError);
      }
      if |buffer| < capacity {
        buffer := buffer + [packed.value];
        enqueued := enqueued + [packed.value];
        err := None;
      } else {
        err := Some(SendBuffMsgTimeout);
      }
    }

    /** `SendByteMsg`: queue bytes that are already wire-ready. */
    method SendByteMsg(data: Bytes) returns (err: Option<SendError>)
      requires Valid()
      modifies this`buffer, this`enqueued
      ensures Valid()
      ensures old(closed) ==> err == Some(ClosedWhenSendBuffMsg) && buffer == old(buffer)
      ensures !closed ==>
        if |old(buffer)| < capacity then err == None && buffer == old(buffer) + [data]
        else err == Some(SendBuffMsgTimeout) && buffer == old(buffer)
    {
      if IsClosed() {
        return Some(ClosedWhenSendBuffMsg);
      }
      if |buffer| < capacity {
        buffer := buffer + [data];
        enqueued := enqueued + [data];
        err := None;
      } else {
        err := Some(SendBuffMsgTimeout);
      }
    }

    /** One pass of `StartWriter`'s loop. When both the context and the buffer
        are ready, Go picks either case; `chooseDone` is that choice. `writeOk`
        is whether the socket write succeeds; a write on a closed socket fails. */
    method WriterStep(chooseDone: bool, writeOk: bool) returns (o: WriterOutcome)
      requires Valid()
      modifies this`buffer, this`written, this`dequeued
      ensures Valid()
      ensures o == Returned <==> old(cancelled) && (chooseDone || (old(buffer) == [] && !chanClosed))
      ensures o == Returned ==> buffer == old(buffer) && written == old(written)
      ensures o == Wrote || o == WriteFailed ==>
        && old(buffer) != [] && buffer == old(buffer)[1..]
        && dequeued == old(dequeued) + [old(buffer)[0]]
        && written == (if o == Wrote then old(written) + [old(buffer)[0]] else old(written))
      ensures o == Wrote <==> old(buffer) != [] && writeOk && !socketClosed && (!cancelled || !chooseDone)
      ensures o == WriteFailed <==> old(buffer) != [] && (!writeOk || socketClosed) && (!cancelled || !chooseDone)
      ensures o == BufferClosed <==> old(buffer) == [] && chanClosed && (!cancelled || !chooseDone)
      ensures o == BufferClosed ==> old(buffer) == [] && chanClosed && buffer == old(buffer) && written == old(written)
      ensures o == Blocked <==> old(buffer) == [] && !chanClosed && !cancelled
      ensures o == Blocked ==> buffer == old(buffer) && written == old(written)
    {
      var bufferReady := |buffer| > 0 || chanClosed;
      if cancelled && (chooseDone || !bufferReady) {
        // ctx.Done(): return; the deferred Stop finds the context already cancelled
        return Returned;
      }
      if |buffer| > 0 {
        var data := buffer[0];
        buffer := buffer[1..];
        dequeued := dequeued + [data];
        if writeOk && !socketClosed {
          written := written + [data];
          o := Wrote;
        } else {
          o := WriteFailed;
        }
      } else if chanClosed {
        o := BufferClosed;
      } else {
        o := Blocked;
      }
    }

    /** `StartReader`: unless the context is already done, dispatch every
        message the loop frames, then `Stop` (deferred) once a framing step
        fails. The whole run happens at clock `now`. */
    method StartReader(codec: Codec, now: int)
      requires Valid() && started && codec.headLen > 0
      modifies this`inbox, this`dispatched, this`lastActivityTime, this`cancelled
      ensures Valid() && cancelled
      ensures old(cancelled) ==> inbox == old(inbox) && dispatched == old(dispatched) && lastActivityTime == old(lastActivityTime)
      ensures !old(cancelled) ==>
        ReaderRan(codec, old(inbox), old(dispatched), old(lastActivityTime), now, inbox, dispatched, lastActivityTime)
    {
      if cancelled {
        return;
      }
      ReadInbox(codec, now);
      Stop();
    }

    /** The read loop of `StartReader` over the bytes the peer has sent. */
    method ReadInbox(codec: Codec, now: int)
      requires codec.headLen > 0
      modifies this`inbox, this`dispatched, this`lastActivityTime
      ensures ReaderRan(codec, old(inbox), old(dispatched), old(lastActivityTime), now, inbox, dispatched, lastActivityTime)
    {
      var got, rest, last := ReadFrames(codec, inbox, hasHeartbeat, lastActivityTime, now);
      inbox, dispatched, lastActivityTime := rest, dispatched + got, last;
    }

    /** `GetProperty`: nil for a missing key. */
    function GetProperty(key: string): (v: Any)
      reads this
      ensures key !in property ==> v == Nil
      ensures key in property ==> v == property[key]
    {
      if key in property then property[key] else Nil
    }

    /** `SetProperty`. */
    method SetProperty(key: string, value: Any)
      requires Valid()
      modifies this`property
      ensures Valid()
      ensures property == old(property)[key := value]
      ensures GetProperty(key) == value
      ensures forall k :: k != key ==> GetProperty(k) == old(GetProperty(k))
      ensures key != "user_id" && key != "client_ip" ==> Value(key) == value
    {
      property := property[key := value];
    }

    /** `RemoveProperty`. */
    method RemoveProperty(key: string)
      requires Valid()
      modifies this`property
      ensures Valid()
      ensures property == old(property) - {key}
      ensures GetProperty(key) == Nil
      ensures forall k :: k != key ==> GetProperty(k) == old(GetProperty(k))
      ensures key != "user_id" && key != "client_ip" ==> Value(key) == Nil
    {
      property := property - {key};
    }

    /** `GetProxyId`. */
    function GetProxyId(): (id: Uint32)
      reads this
      ensures "proxy_id" !in property ==> id == 0
      ensures forall n :: "proxy_id" in property && property["proxy_id"] == U32(n) ==> id == n
    {
      ToUint32(GetProperty("proxy_id"))
    }

    /** `SetProxyId`: store under "proxy_id"; `GetProxyId` reads it back. */
    method SetProxyId(proxyId: Uint32)
      requires Valid()
      modifies this`property
      ensures Valid()
      ensures property == old(property)["proxy_id" := U32(proxyId)]
      ensures GetProxyId() == proxyId && Value("proxy_id") == U32(proxyId)
      ensures GetServerId() == old(GetServerId())
    {
      SetProperty("proxy_id", U32(proxyId));
    }

    /** `GetServerId`. */
    function GetServerId(): (id: Uint32)
      reads this
      ensures "server_id" !in property ==> id == 0
      ensures forall n :: "server_id" in property && property["server_id"] == U32(n) ==> id == n
    {
      ToUint32(GetProperty("server_id"))
    }

    /** `SetServerId`: store under "server_id"; `GetServerId` reads it back. */
    method SetServerId(serverId: Uint32)
      requires Valid()
      modifies this`property
      ensures Valid()
      ensures property == old(property)["server_id" := U32(serverId)]
      ensures GetServerId() == serverId && Value("server_id") == U32(serverId)
      ensures GetProxyId() == old(GetProxyId())
    {
      SetProperty("server_id", U32(serverId));
    }

    /** `SetUserId`. */
    method SetUserId(id: Uint64)
      requires Valid()
      modifies this`userId
      ensures Valid()
      ensures userId == id
      ensures Value("user_id") == U64(id)
    {
      userId := id;
    }

    /** `Value`: "user_id" and "client_ip" are answered from the connection
        itself, every other key from the property bag. */
    function Value(key: string): (v: Any)
      reads this
      ensures key == "user_id" ==> v == U64(userId)
      ensures key == "client_ip" ==> v == Text(GetRemoteIP(remoteAddr))
      ensures key != "user_id" && key != "client_ip" ==> v == GetProperty(key)
    {
      if key == "user_id" then U64(userId)
      else if key == "client_ip" then Text(GetRemoteIP(remoteAddr))
      else GetProperty(key)
    }
  }

  /** A connection's life from accept to teardown, as a caller of the class
      sees it: a buffered send is written by the writer, a send after the
      teardown is refused, and a second finalizer run changes nothing. */
  method Lifecycle(codec: Codec, frame: Bytes)
    requires codec.pack(1, frame).Some?
  {
    var c := new Connection(7, "10.0.0.1:9000", 2, true, true, []);
    c.Start(100);
    assert c.IsAlive(100, 10);
    var err := c.SendBuffMsg(codec, 1, frame);
    assert err == None && c.buffer == [codec.pack(1, frame).value];
    var o := c.WriterStep(false, true);
    assert o == Wrote && c.written == [codec.pack(1, frame).value];
    c.Stop();
    c.Finalizer();
    assert c.trace == [HeartbeatStop, SocketClose, RegistryRemove, ChanClose, StopHook];
    err := c.SendByteMsg(frame);
    assert err == Some(ClosedWhenSendBuffMsg) && c.buffer == [];
    c.Finalizer();
    assert c.trace == [HeartbeatStop, SocketClose, RegistryRemove, ChanClose, StopHook];
    assert !c.IsAlive(100, 10);
  }
}
