/**
  The HTTP gateway's request admission (`WrapHandle` in
  server/hserver/controller/base.go): a fixed chain of header checks that
  either rejects the request with a response code, without calling the
  business handler, or builds the handler's request from the parsed player
  list and the caller's live connection. The `cast` conversions, the
  connection lookup, the handler and `json.Marshal` come from outside the
  file and are parameters.
 */
module Controller {
  import opened Types
  import opened Strings

  /** The request headers, already keyed by the names `Header.Get` looks up. */
  type Headers = map<string, string>

  /** `r.Header.Get(key)`: the empty string for a missing header. */
  function Get(h: Headers, key: string): string
  {
    if key in h then h[key] else ""
  }

  /** The response codes of the admission checks, in the order they are tried. */
  const MissingParam := 1000
  const NoPlayers := 1001
  const NoConnection := 1005
  const ProxyMismatch := 1010
  const ServerMismatch := 1012
  const UserMismatch := 1015

  /** `cast.ToInt`, `cast.ToUint32` and `cast.ToUint64` on header text. */
  datatype Casts = Casts(toInt: string -> int, toUint32: string -> Uint32, toUint64: string -> Uint64)

  /** What the checks read of the caller's connection: `GetProxyId`,
      `GetServerId` and `GetUserId`. */
  datatype ConnView = ConnView(proxyId: Uint32, serverId: Uint32, userId: Uint64)

  /** `server.Request` as the handler receives it; `conn` is nil for a
      request without a user. */
  datatype Request = Request(playerIds: seq<int>, userId: Uint64, conn: Option<ConnView>, traceId: string)

  /** `server.Response`: its code, its log type and its message. */
  datatype Response = Response(code: int, typ: int, msg: string)

  /** A rejection with its code, or the request the handler was called with
      and what it answered. */
  datatype Outcome = Rejected(code: int) | Handled(request: Request, response: Response)

  /** One of the six parameters is missing or empty. */
  predicate MissingParams(h: Headers)
  {
    || Get(h, "proxy_id") == ""
    || Get(h, "server_id") == ""
    || Get(h, "user_id") == ""
    || Get(h, "client_ip") == ""
    || Get(h, "player_id") == ""
    || Get(h, "trace_id") == ""
  }

  /** The non-empty pieces, converted, in order. */
  function Kept(pieces: seq<string>, toInt: string -> int): seq<int>
    decreases |pieces|
  {
    if pieces == [] then []
    else
      var last := pieces[|pieces| - 1];
      Kept(pieces[..|pieces| - 1], toInt) + (if last != "" then [toInt(last)] else [])
  }

  /** The player list of a `player_id` header: its comma-separated pieces,
      empty ones dropped, converted with `toInt`, in order. */
  function PlayerIds(s: string, toInt: string -> int): seq<int>
  {
    Kept(Split(s, ','), toInt)
  }

  /** The loop that builds `playerIds`. */
  method ParsePlayerIds(playerId: string, toInt: string -> int) returns (ids: seq<int>)
    ensures ids == PlayerIds(playerId, toInt)
  {
    var pieces := Split(playerId, ',');
    ids := [];
    var i := 0;
    while i < |pieces|
      invariant 0 <= i <= |pieces|
      invariant ids == Kept(pieces[..i], toInt)
    {
      if pieces[i] != "" {
        ids := ids + [toInt(pieces[i])];
      }
      assert pieces[..i + 1][..i] == pieces[..i];
      i := i + 1;
    }
    assert pieces[..|pieces|] == pieces;
  }

  /** Keeping distributes over concatenation. */
  lemma {:induction false} KeptConcat(a: seq<string>, b: seq<string>, toInt: string -> int)
    ensures Kept(a + b, toInt) == Kept(a, toInt) + Kept(b, toInt)
    decreases |b|
  {
    if b == [] {
      assert a + b == a;
    } else {
      var ab := a + b;
      assert ab[..|ab| - 1] == a + b[..|b| - 1];
      KeptConcat(a, b[..|b| - 1], toInt);
    }
  }

  /** A comma separates the players of each side. */
  lemma PlayerIdsConcat(a: string, b: string, toInt: string -> int)
    ensures PlayerIds(a + [','] + b, toInt) == PlayerIds(a, toInt) + PlayerIds(b, toInt)
  {
    SplitConcat(a, ',', b);
    KeptConcat(Split(a, ','), Split(b, ','), toInt);
  }

  /** Text without a comma is a single player, or none when it is empty. */
  lemma PlayerIdsSingle(s: string, toInt: string -> int)
    requires ',' !in s
    ensures PlayerIds(s, toInt) == if s == "" then [] else [toInt(s)]
  {
    SplitSingleIffNoSep(s, ',');
    JoinSplit(s, ',');
    assert Split(s, ',') == [s];
    assert [s][..0] == [];
    assert Kept([s], toInt) == Kept([], toInt) + (if s != "" then [toInt(s)] else []);
  }

  predicate AllEmpty(pieces: seq<string>)
  {
    forall i :: 0 <= i < |pieces| ==> pieces[i] == ""
  }

  lemma {:induction false} KeptEmptyIff(pieces: seq<string>, toInt: string -> int)
    ensures Kept(pieces, toInt) == [] <==> AllEmpty(pieces)
    decreases |pieces|
  {
    if pieces != [] {
      var init := pieces[..|pieces| - 1];
      KeptEmptyIff(init, toInt);
      assert pieces == init + [pieces[|pieces| - 1]];
    }
  }

  lemma {:induction false} SplitAllEmptyIff(s: string)
    ensures AllEmpty(Split(s, ',')) <==> forall i :: 0 <= i < |s| ==> s[i] == ','
    decreases |s|
  {
    if s != [] {
      SplitAllEmptyIff(s[1..]);
      var tail := Split(s[1..], ',');
      if s[0] == ',' {
        assert Split(s, ',') == [""] + tail;
        assert forall i :: 0 <= i < |tail| ==> Split(s, ',')[i + 1] == tail[i];
        assert AllEmpty(Split(s, ',')) <==> AllEmpty(tail);
        assert (forall i :: 0 <= i < |s| ==> s[i] == ',') <==> (forall i :: 0 <= i < |s[1..]| ==> s[1..][i] == ',') by {
          if forall i :: 0 <= i < |s[1..]| ==> s[1..][i] == ',' {
            forall i | 0 <= i < |s| ensures s[i] == ',' {
              if i > 0 {
                assert s[i] == s[1..][i - 1];
              }
            }
          }
        }
      } else {
        assert Split(s, ',')[0] != "";
      }
    }
  }

  /** No player is left exactly when the header holds nothing but commas. */
  lemma PlayerIdsEmptyIff(s: string, toInt: string -> int)
    ensures PlayerIds(s, toInt) == [] <==> forall i :: 0 <= i < |s| ==> s[i] == ','
  {
    KeptEmptyIff(Split(s, ','), toInt);
    SplitAllEmptyIff(s);
  }

  /** The header checks before the connection checks pass. */
  predicate ParamsOk(h: Headers, casts: Casts)
  {
    !MissingParams(h) && PlayerIds(Get(h, "player_id"), casts.toInt) != []
  }

  /** The connection registered for `uid` belongs to the proxy, the server
      and the user the headers name. */
  predicate ConnMatches(h: Headers, casts: Casts, c: ConnView, uid: Uint64)
  {
    && c.proxyId == casts.toUint32(Get(h, "proxy_id"))
    && c.serverId == casts.toUint32(Get(h, "server_id"))
    && c.userId == uid
  }

  /** When the handler gets the request: every parameter present, at least
      one player, and either no user or a user with a matching connection. */
  predicate Admissible(h: Headers, casts: Casts, lookup: Uint64 -> Option<ConnView>)
  {
    var uid := casts.toUint64(Get(h, "user_id"));
    ParamsOk(h, casts) && (uid == 0 || (lookup(uid).Some? && ConnMatches(h, casts, lookup(uid).value, uid)))
  }

  /** The returned handler of `WrapHandle`, on one request. The checks run
      in order and the first failure decides the code; the handler is
      called only when all pass. A request whose `user_id` converts to 0
      skips the connection checks and reaches the handler without a
      connection. */
  function WrapHandle(h: Headers, casts: Casts, lookup: Uint64 -> Option<ConnView>, handler: Request -> Response): (r: Outcome)
    ensures r.Handled? <==> Admissible(h, casts, lookup)
    ensures r == Rejected(MissingParam) <==> MissingParams(h)
    ensures r == Rejected(NoPlayers) <==> !MissingParams(h) && PlayerIds(Get(h, "player_id"), casts.toInt) == []
    ensures var uid := casts.toUint64(Get(h, "user_id"));
      r == Rejected(NoConnection) <==> (ParamsOk(h, casts) && uid > 0 && lookup(uid).None?)
    ensures var uid := casts.toUint64(Get(h, "user_id"));
      r == Rejected(ProxyMismatch) <==>
        (ParamsOk(h, casts) && uid > 0 && lookup(uid).Some?
         && lookup(uid).value.proxyId != casts.toUint32(Get(h, "proxy_id")))
    ensures var uid := casts.toUint64(Get(h, "user_id"));
      r == Rejected(ServerMismatch) <==>
        (ParamsOk(h, casts) && uid > 0 && lookup(uid).Some?
         && lookup(uid).value.proxyId == casts.toUint32(Get(h, "proxy_id"))
         && lookup(uid).value.serverId != casts.toUint32(Get(h, "server_id")))
    ensures var uid := casts.toUint64(Get(h, "user_id"));
      r == Rejected(UserMismatch) <==>
        (ParamsOk(h, casts) && uid > 0 && lookup(uid).Some?
         && lookup(uid).value.proxyId == casts.toUint32(Get(h, "proxy_id"))
         && lookup(uid).value.serverId == casts.toUint32(Get(h, "server_id"))
         && lookup(uid).value.userId != uid)
    ensures r.Rejected? ==> r.code in {MissingParam, NoPlayers, NoConnection, ProxyMismatch, ServerMismatch, UserMismatch}
    ensures r.Handled? ==>
      && r.request.playerIds == PlayerIds(Get(h, "player_id"), casts.toInt)
      && r.request.userId == casts.toUint64(Get(h, "user_id"))
      && r.request.traceId == Get(h, "trace_id")
      && r.request.conn == (if r.request.userId == 0 then None else lookup(r.request.userId))
      && r.response == handler(r.request)
  {
    var uid := casts.toUint64(Get(h, "user_id"));
    if MissingParams(h) then Rejected(MissingParam)
    else if PlayerIds(Get(h, "player_id"), casts.toInt) == [] then Rejected(NoPlayers)
    else if uid > 0 && lookup(uid).None? then Rejected(NoConnection)
    else if uid > 0 && lookup(uid).value.proxyId != casts.toUint32(Get(h, "proxy_id")) then Rejected(ProxyMismatch)
    else if uid > 0 && lookup(uid).value.serverId != casts.toUint32(Get(h, "server_id")) then Rejected(ServerMismatch)
    else if uid > 0 && lookup(uid).value.userId != uid then Rejected(UserMismatch)
    else
      var request := Request(PlayerIds(Get(h, "player_id"), casts.toInt), uid, if uid > 0 then lookup(uid) else None, Get(h, "trace_id"));
      Handled(request, handler(request))
  }

  /** A rejected request never reaches the handler: any other handler gives
      the same outcome. */
  lemma RejectionSkipsHandler(h: Headers, casts: Casts, lookup: Uint64 -> Option<ConnView>, handler: Request -> Response, other: Request -> Response)
    requires WrapHandle(h, casts, lookup, handler).Rejected?
    ensures WrapHandle(h, casts, lookup, other) == WrapHandle(h, casts, lookup, handler)
  {
  }

  /** A request without a user never consults the connection registry. */
  lemma GuestSkipsLookup(h: Headers, casts: Casts, lookup: Uint64 -> Option<ConnView>, other: Uint64 -> Option<ConnView>, handler: Request -> Response)
    requires casts.toUint64(Get(h, "user_id")) == 0
    ensures WrapHandle(h, casts, other, handler) == WrapHandle(h, casts, lookup, handler)
    ensures WrapHandle(h, casts, lookup, handler).Handled? <==> ParamsOk(h, casts)
  {
  }

  /** What `writeResponseBytes` puts on the wire: the `content-length`
      header and the body. */
  datatype HttpReply = HttpReply(contentLength: string, body: Bytes)

  /** `writeResponseBytes`: the body is the data, and `content-length` is the
      decimal text of its length. */
  function WriteResponseBytes(data: Bytes): (w: HttpReply)
    ensures w.body == data
    ensures IsDecimal(w.contentLength) && ParseDecimal(w.contentLength) == |w.body|
  {
    ParseDecimalString(|data|);
    HttpReply(DecimalString(|data|), data)
  }

  /** `writeResponseData`: the response marshalled by `marshal` (standing for
      `json.Marshal`), written with its length. */
  function WriteResponseData(marshal: Response -> Bytes, resp: Response): (w: HttpReply)
    ensures w.body == marshal(resp)
    ensures IsDecimal(w.contentLength) && ParseDecimal(w.contentLength) == |w.body|
  {
    WriteResponseBytes(marshal(resp))
  }

  /** The response `WrapHandle` writes: a bare code for a rejection, the
      handler's answer otherwise. */
  function Reply(o: Outcome): (r: Response)
    ensures o.Rejected? ==> r.code == o.code && r.typ == 0 && r.msg == ""
    ensures o.Handled? ==> r == o.response
  {
    match o
    case Rejected(code) => Response(code, 0, "")
    case Handled(_, resp) => resp
  }

  /** What the wrapped handler answers: a bare admission code, carrying no
      log type and no message, when a check fails; otherwise exactly what the
      handler returned for the admitted request. */
  lemma WrittenResponse(h: Headers, casts: Casts, lookup: Uint64 -> Option<ConnView>, handler: Request -> Response)
    ensures var o := WrapHandle(h, casts, lookup, handler);
      !Admissible(h, casts, lookup) ==>
        && Reply(o).code in {MissingParam, NoPlayers, NoConnection, ProxyMismatch, ServerMismatch, UserMismatch}
        && Reply(o).typ == 0 && Reply(o).msg == ""
    ensures var o := WrapHandle(h, casts, lookup, handler);
      Admissible(h, casts, lookup) ==> Reply(o) == handler(o.request)
  {
  }

  /** One request through the wrapped handler: the admission outcome's
      response, marshalled and framed by its length. */
  function Serve(h: Headers, casts: Casts, lookup: Uint64 -> Option<ConnView>, handler: Request -> Response,
                 marshal: Response -> Bytes): (w: HttpReply)
    ensures w.body == marshal(Reply(WrapHandle(h, casts, lookup, handler)))
    ensures IsDecimal(w.contentLength) && ParseDecimal(w.contentLength) == |w.body|
  {
    WriteResponseData(marshal, Reply(WrapHandle(h, casts, lookup, handler)))
  }
}
