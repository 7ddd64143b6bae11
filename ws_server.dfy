/** The WebSocket command router (src/main/server/wsServer.ts): the replies a
    parsed inbound message earns, and the table of connected clients with the
    privilege each was given when it connected. */
module WsServer {
  import opened Util
  import opened GestureAppTypes
  import opened Messages
  import opened Helpers
  import opened AppInfo
  import GestureAppController
  import GestureAppMinimal

  /** The payloads the router sends. */
  datatype ReplyData =
    | Drives(drives: seq<string>)
    | CurrentState(state: GestureAppState)
    | Info(info: AppInfoData)

  /** `{ type, data }` as handed to `ws.send`, before `JSON.stringify`. */
  datatype Reply = Reply(messageType: string, data: ReplyData)

  /** The fixed drive list a privileged `getFSDrives` is answered with. */
  const FsDrives: seq<string> := ["C:", "D:", "E:"]

  /** The first `switch`, reached only by privileged connections. */
  function PrivilegedReplies(t: string, state: GestureAppState): (r: seq<Reply>)
    ensures forall k :: 0 <= k < |r| ==> r[k].messageType == t && !r[k].data.Info?
    ensures |r| == (if t == "getFSDrives" || t == "getCurrentState" then 1 else 0)
  {
    match t
    case "getFSDrives" => [Reply(t, Drives(FsDrives))]
    case "getCurrentState" => [Reply(t, CurrentState(state))]
    case _ => []
  }

  /** The second `switch`, reached by every connection. `info` is `None`
      when building the snapshot throws, which the `catch` swallows. */
  function CommonReplies(t: string, state: GestureAppState, info: Option<AppInfoData>): (r: seq<Reply>)
    ensures forall k :: 0 <= k < |r| ==> r[k].messageType == t && !r[k].data.Drives?
    ensures |r| == (if (t == "appInfo" && info.Some?) || t == "getCurrentState" then 1 else 0)
  {
    match t
    case "appInfo" => if info.Some? then [Reply(t, Info(info.value))] else []
    case "getCurrentState" => [Reply(t, CurrentState(state))]
    case _ => []
  }

  /** The `type` of a message that passed the envelope check. */
  function InboundType(message: Json): string
    requires IsBaseMessage(message)
  {
    message.fields["type"].s
  }

  /** The listener's replies, in sending order, to one inbound message.
      `parsed` is `None` when `JSON.parse` throws; the controller's mode and
      the snapshot are read when the message arrives; the snapshot is `None`
      when `appInfo` throws (a getter the instance lacks). */
  function Respond(isPrivileged: bool, parsed: Option<Json>, state: GestureAppState, info: Option<AppInfoData>): (r: seq<Reply>)
    ensures parsed.None? || !IsBaseMessage(parsed.value) ==> r == []
    ensures parsed.Some? && IsBaseMessage(parsed.value) ==>
      var t := InboundType(parsed.value);
      (forall k :: 0 <= k < |r| ==> r[k].messageType == t) &&
      (t == "appInfo" ==> r == (if info.Some? then [Reply(t, Info(info.value))] else [])) &&
      (t == "getFSDrives" ==> r == (if isPrivileged then [Reply(t, Drives(FsDrives))] else [])) &&
      (t == "getCurrentState" ==>
        r == (if isPrivileged then [Reply(t, CurrentState(state)), Reply(t, CurrentState(state))]
              else [Reply(t, CurrentState(state))])) &&
      (t != "appInfo" && t != "getFSDrives" && t != "getCurrentState" ==> r == [])
    ensures !isPrivileged ==> forall k :: 0 <= k < |r| ==> !r[k].data.Drives?
  {
    if parsed.None? || !IsBaseMessage(parsed.value) then []
    else
      var t := InboundType(parsed.value);
      (if isPrivileged then PrivilegedReplies(t, state) else []) + CommonReplies(t, state, info)
  }

  /** The listener wired to an instance that has every getter `appInfo`
      calls: the mode is `getState()` and the snapshot is `appInfo` with this
      connection's privilege. */
  function Dispatch(isPrivileged: bool, parsed: Option<Json>, props: ServerProps,
                    g: GestureAppController.GestureApp, greyscale: int, randomFlip: bool): (r: seq<Reply>)
    reads g
    ensures forall k :: 0 <= k < |r| && r[k].data.Info? ==>
      r[k].data.info.isPrivileged == isPrivileged && r[k].data.info.gestureAppState == g.GetState() &&
      r[k].data.info.host == props.host
    ensures forall k :: 0 <= k < |r| && r[k].data.CurrentState? ==> r[k].data.state == g.GetState()
  {
    Respond(isPrivileged, parsed, g.GetState(), Some(BuildAppInfo(props, isPrivileged, g, greyscale, randomFlip)))
  }

  /** The listener wired to the instance the main process builds, which has
      only `getState` and `switchState`: `appInfo` throws on the first
      missing getter, so an `appInfo` request is answered by nothing, while
      `getCurrentState` is answered with the mode. */
  function DispatchMinimal(isPrivileged: bool, parsed: Option<Json>, g: GestureAppMinimal.GestureApp): (r: seq<Reply>)
    reads g
    requires g.Valid()
    ensures forall k :: 0 <= k < |r| ==> !r[k].data.Info?
    ensures forall k :: 0 <= k < |r| && r[k].data.CurrentState? ==> r[k].data.state == LastStateEvent(g.events)
    ensures parsed.Some? && IsBaseMessage(parsed.value) && InboundType(parsed.value) == "appInfo" ==> r == []
  {
    Respond(isPrivileged, parsed, g.GetState(), None)
  }

  /** No inbound message earns more than two replies, and only `getCurrentState`
      from a privileged connection earns two. */
  lemma RespondAtMostTwo(isPrivileged: bool, parsed: Option<Json>, state: GestureAppState, info: Option<AppInfoData>)
    ensures var r := Respond(isPrivileged, parsed, state, info);
      |r| <= 2 &&
      (|r| == 2 <==> isPrivileged && parsed.Some? && IsBaseMessage(parsed.value) &&
                     InboundType(parsed.value) == "getCurrentState")
  {
    if parsed.Some? && IsBaseMessage(parsed.value) {
      var t := InboundType(parsed.value);
      if t != "appInfo" && t != "getFSDrives" && t != "getCurrentState" {
        assert Respond(isPrivileged, parsed, state, info) == [];
      }
    }
  }

  /** A reply payload as `JSON.stringify` then `JSON.parse` leave it. */
  function EncodeReplyData(d: ReplyData): Json {
    match d
    case Drives(ds) => JObject(map["drives" := JArray(seq(|ds|, k requires 0 <= k < |ds| => JString(ds[k])))])
    case CurrentState(s) => JObject(map["state" := JString(StateName(s))])
    case Info(info) => EncodeAppInfo(info)
  }

  function EncodeReply(r: Reply): Json {
    JObject(map["type" := JString(r.messageType), "data" := EncodeReplyData(r.data)])
  }

  /** One reply on the wire passes the envelope check with its own `type`;
      an `appInfo` snapshot reply reads back as the snapshot. */
  lemma ReplyIsBaseMessage(rp: Reply)
    ensures AsBaseMessage(EncodeReply(rp)).Some?
    ensures AsBaseMessage(EncodeReply(rp)).value.messageType == rp.messageType
    ensures rp.messageType == "appInfo" && rp.data.Info? ==>
      IsAppInfoMessage(AsBaseMessage(EncodeReply(rp)).value) &&
      DecodeAppInfo(AsBaseMessage(EncodeReply(rp)).value.data) == Some(rp.data.info)
  {
    if rp.data.Info? {
      DecodeEncodeAppInfo(rp.data.info);
    }
  }

  /** Every reply, once on the wire, passes the client's own envelope check
      and carries the inbound message's `type`; an `appInfo` reply is
      recognised as one and reads back as the snapshot sent. */
  lemma RepliesAreBaseMessages(isPrivileged: bool, parsed: Option<Json>, state: GestureAppState, info: Option<AppInfoData>)
    ensures var r := Respond(isPrivileged, parsed, state, info);
      forall k :: 0 <= k < |r| ==>
        AsBaseMessage(EncodeReply(r[k])).Some? &&
        AsBaseMessage(EncodeReply(r[k])).value.messageType == InboundType(parsed.value)
    ensures var r := Respond(isPrivileged, parsed, state, info);
      forall k :: 0 <= k < |r| && r[k].data.Info? ==>
        IsAppInfoMessage(AsBaseMessage(EncodeReply(r[k])).value) &&
        info.Some? && DecodeAppInfo(AsBaseMessage(EncodeReply(r[k])).value.data) == info
  {
    var r := Respond(isPrivileged, parsed, state, info);
    forall k | 0 <= k < |r|
      ensures AsBaseMessage(EncodeReply(r[k])).Some? &&
        AsBaseMessage(EncodeReply(r[k])).value.messageType == InboundType(parsed.value)
      ensures r[k].data.Info? ==>
        IsAppInfoMessage(AsBaseMessage(EncodeReply(r[k])).value) &&
        info.Some? && DecodeAppInfo(AsBaseMessage(EncodeReply(r[k])).value.data) == info
    {
      ReplyIsBaseMessage(r[k]);
      if r[k].data.Info? {
        assert r[k] == Reply("appInfo", Info(info.value));
      }
    }
  }

  /** The start message the start screen sends earns no reply: the router
      has no case for `setGestureAppState`. */
  lemma SetGestureAppStateGetsNoReply(isPrivileged: bool, d: SetGestureAppStateData, state: GestureAppState, info: Option<AppInfoData>)
    ensures Respond(isPrivileged, Some(EncodeSetGestureAppState(d)), state, info) == []
  {
    EncodedSetGestureAppStateIsRecognised(d);
  }

  /** A connection, by identity. */
  type Socket = nat

  /** Setting one connection's entry grows the table by one exactly when the
      connection was not in it. */
  lemma UpdateSize(m: map<Socket, bool>, ws: Socket, v: bool)
    ensures |m[ws := v]| == if ws in m then |m| else |m| + 1
  {
  }

  /** Removing one connection shrinks the table by one exactly when the
      connection was in it. */
  lemma RemoveSize(m: map<Socket, bool>, ws: Socket)
    ensures |m - {ws}| == if ws in m then |m| - 1 else |m|
  {
    if ws in m {
      assert (m - {ws})[ws := m[ws]] == m;
      UpdateSize(m - {ws}, ws, m[ws]);
    } else {
      assert m - {ws} == m;
    }
  }

  /** `connectedClients`: each open connection and the privilege it was
      given when it connected. */
  class ClientTable {
    /** The server's own host, fixed when the server is created. */
    const host: string
    var clients: map<Socket, bool>
    /** The peer address each connection reported when it connected. */
    ghost var origins: map<Socket, Option<string>>

    /** Every stored flag is `isLocalhost` of the peer's address at connect time. */
    ghost predicate Valid()
      reads this
    {
      origins.Keys == clients.Keys &&
      forall ws :: ws in clients ==> clients[ws] == IsLocalhost(origins[ws], host)
    }

    constructor (host: string)
      ensures Valid()
      ensures this.host == host && clients == map[]
    {
      this.host := host;
      clients := map[];
      origins := map[];
    }

    /** The `connection` handler: the privilege is computed once, from the
        peer's address, and stored for this connection. */
    method Connect(ws: Socket, remoteAddress: Option<string>) returns (isPrivileged: bool)
      requires Valid()
      modifies this
      ensures Valid()
      ensures isPrivileged <==> remoteAddress.Some? && remoteAddress.value in LoopbackAddresses + {host}
      ensures clients == old(clients)[ws := isPrivileged]
      ensures origins == old(origins)[ws := remoteAddress]
      ensures Size() == if ws in old(clients) then old(Size()) else old(Size()) + 1
    {
      UpdateSize(clients, ws, IsLocalhost(remoteAddress, host));
      isPrivileged := IsLocalhost(remoteAddress, host);
      clients := clients[ws := isPrivileged];
      origins := origins[ws := remoteAddress];
    }

    /** The `close` handler: exactly this connection leaves the table. */
    method Close(ws: Socket)
      requires Valid()
      modifies this
      ensures Valid()
      ensures clients == old(clients) - {ws}
      ensures origins == old(origins) - {ws}
      ensures Size() == if ws in old(clients) then old(Size()) - 1 else old(Size())
    {
      RemoveSize(clients, ws);
      clients := clients - {ws};
      origins := origins - {ws};
    }

    /** `connectedClients.size`. */
    function Size(): (n: nat)
      reads this
      ensures n == |clients.Keys|
    {
      |clients|
    }
  }
}
