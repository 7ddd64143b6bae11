/** The message envelope `{ type, data }`, its validator and the per-type
    guards (src/domain/messages.ts), over the values `JSON.parse` produces. */
module Messages {
  import opened Util
  import opened GestureAppTypes

  /** A value as `JSON.parse` returns it. Objects are maps (a repeated key
      keeps its last value, as `JSON.parse` does). */
  datatype Json =
    | JNull
    | JBool(b: bool)
    | JNumber(n: real)
    | JString(s: string)
    | JArray(items: seq<Json>)
    | JObject(fields: map<string, Json>)

  /** JavaScript's `typeof` on a parsed value: `null` and arrays are "object". */
  function TypeOf(v: Json): (t: string)
    ensures t == "object" <==> v.JNull? || v.JArray? || v.JObject?
    ensures t == "string" <==> v.JString?
  {
    match v
    case JNull => "object"
    case JBool(_) => "boolean"
    case JNumber(_) => "number"
    case JString(_) => "string"
    case JArray(_) => "object"
    case JObject(_) => "object"
  }

  /** JavaScript's `key in v` on a parsed value. Arrays carry only index keys
      and `length`, never `type` or `data`. */
  predicate HasKey(v: Json, key: string) {
    v.JObject? && key in v.fields
  }

  /** `isBaseMessage`, read off the source's checks one by one. */
  function IsBaseMessage(message: Json): (r: bool)
    ensures message.JNull? ==> !r
    ensures TypeOf(message) != "object" ==> !r
    ensures r <==>
      message.JObject? &&
      "type" in message.fields && message.fields["type"].JString? &&
      "data" in message.fields && (message.fields["data"].JObject? || message.fields["data"].JArray?)
  {
    if message == JNull || TypeOf(message) != "object" then false
    else
      HasKey(message, "type") && TypeOf(message.fields["type"]) == "string" &&
      HasKey(message, "data") && TypeOf(message.fields["data"]) == "object" && message.fields["data"] != JNull
  }

  /** `BaseMessage`: a message that passed `isBaseMessage`. */
  datatype BaseMessage = BaseMessage(messageType: string, data: Json)

  function AsBaseMessage(message: Json): (r: Option<BaseMessage>)
    ensures r.Some? <==> IsBaseMessage(message)
    ensures r.Some? ==> JString(r.value.messageType) == message.fields["type"] && r.value.data == message.fields["data"]
  {
    if IsBaseMessage(message) then Some(BaseMessage(message.fields["type"].s, message.fields["data"])) else None
  }

  /** The message types that have a guard. */
  datatype MessageKind =
    | AppInfoKind
    | ListFolderKind
    | ListFolderRequestKind
    | SetMediaFolderKind
    | ChangeCurrentSlideShowIntervalKind
    | SetGestureAppStateKind
    | GestureAppCurrentMediaIdKind
    | AppInfoUpdateKind
    | GestureAppSwitchMediaKind

  /** The `type` literal of each kind. */
  function TypeLiteral(k: MessageKind): string {
    match k
    case AppInfoKind => "appInfo"
    case ListFolderKind => "listFolder"
    case ListFolderRequestKind => "listFolderRequest"
    case SetMediaFolderKind => "setMediaFolder"
    case ChangeCurrentSlideShowIntervalKind => "changeCurrentSlideShowInterval"
    case SetGestureAppStateKind => "setGestureAppState"
    case GestureAppCurrentMediaIdKind => "gestureAppCurrentMediaId"
    case AppInfoUpdateKind => "appInfoUpdate"
    case GestureAppSwitchMediaKind => "gestureAppSwitchMedia"
  }

  /** The one kind, if any, whose literal is the message's `type`. */
  function KindOf(m: BaseMessage): (r: Option<MessageKind>)
    ensures forall k :: r == Some(k) <==> m.messageType == TypeLiteral(k)
  {
    match m.messageType
    case "appInfo" => Some(AppInfoKind)
    case "listFolder" => Some(ListFolderKind)
    case "listFolderRequest" => Some(ListFolderRequestKind)
    case "setMediaFolder" => Some(SetMediaFolderKind)
    case "changeCurrentSlideShowInterval" => Some(ChangeCurrentSlideShowIntervalKind)
    case "setGestureAppState" => Some(SetGestureAppStateKind)
    case "gestureAppCurrentMediaId" => Some(GestureAppCurrentMediaIdKind)
    case "appInfoUpdate" => Some(AppInfoUpdateKind)
    case "gestureAppSwitchMedia" => Some(GestureAppSwitchMediaKind)
    case _ => None
  }

  /** The guards are pairwise exclusive: no message has two kinds. */
  lemma GuardsExclusive(m: BaseMessage, k1: MessageKind, k2: MessageKind)
    requires m.messageType == TypeLiteral(k1) && m.messageType == TypeLiteral(k2)
    ensures k1 == k2
  {
    assert KindOf(m) == Some(k1) && KindOf(m) == Some(k2);
  }

  function IsAppInfoMessage(m: BaseMessage): (r: bool)
    ensures r <==> KindOf(m) == Some(AppInfoKind)
  {
    m.messageType == "appInfo"
  }

  function IsListFolderMessage(m: BaseMessage): (r: bool)
    ensures r <==> KindOf(m) == Some(ListFolderKind)
  {
    m.messageType == "listFolder"
  }

  function IsListFolderRequestMessage(m: BaseMessage): (r: bool)
    ensures r <==> KindOf(m) == Some(ListFolderRequestKind)
  {
    m.messageType == "listFolderRequest"
  }

  function IsSetMediaFolderMessage(m: BaseMessage): (r: bool)
    ensures r <==> KindOf(m) == Some(SetMediaFolderKind)
  {
    m.messageType == "setMediaFolder"
  }

  function IsChangeCurrentSlideShowIntervalMessage(m: BaseMessage): (r: bool)
    ensures r <==> KindOf(m) == Some(ChangeCurrentSlideShowIntervalKind)
  {
    m.messageType == "changeCurrentSlideShowInterval"
  }

  function IsSetGestureAppStateMessage(m: BaseMessage): (r: bool)
    ensures r <==> KindOf(m) == Some(SetGestureAppStateKind)
  {
    m.messageType == "setGestureAppState"
  }

  function IsGestureAppCurrentMediaIdMessage(m: BaseMessage): (r: bool)
    ensures r <==> KindOf(m) == Some(GestureAppCurrentMediaIdKind)
  {
    m.messageType == "gestureAppCurrentMediaId"
  }

  function IsAppInfoUpdateMessage(m: BaseMessage): (r: bool)
    ensures r <==> KindOf(m) == Some(AppInfoUpdateKind)
  {
    m.messageType == "appInfoUpdate"
  }

  function IsGestureAppSwitchMediaMessage(m: BaseMessage): (r: bool)
    ensures r <==> KindOf(m) == Some(GestureAppSwitchMediaKind)
  {
    m.messageType == "gestureAppSwitchMedia"
  }

  /** `SetGestureAppStateMessage['data']`; absent optional fields are `None`. */
  datatype SetGestureAppStateData = SetGestureAppStateData(
    newGestureAppState: GestureAppState,
    slideShowInterval: Option<int>,
    greyscale: Option<int>,
    randomFlip: Option<bool>)

  /** The parsed form of `JSON.stringify({ type: "setGestureAppState", data })`:
      fields that are `undefined` are left out of the object. */
  function EncodeSetGestureAppState(d: SetGestureAppStateData): (r: Json)
    ensures r.JObject? && r.fields.Keys == {"type", "data"} && r.fields["type"] == JString("setGestureAppState")
    ensures var data := r.fields["data"];
      data.JObject? &&
      data.fields.Keys <= {"newGestureAppState", "slideShowInterval", "greyscale", "randomFlip"} &&
      "newGestureAppState" in data.fields &&
      data.fields["newGestureAppState"] == JString(StateName(d.newGestureAppState)) &&
      ("slideShowInterval" in data.fields <==> d.slideShowInterval.Some?) &&
      ("greyscale" in data.fields <==> d.greyscale.Some?) &&
      ("randomFlip" in data.fields <==> d.randomFlip.Some?)
    ensures var data := r.fields["data"].fields;
      (d.slideShowInterval.Some? ==> data["slideShowInterval"] == JNumber(d.slideShowInterval.value as real)) &&
      (d.greyscale.Some? ==> data["greyscale"] == JNumber(d.greyscale.value as real)) &&
      (d.randomFlip.Some? ==> data["randomFlip"] == JBool(d.randomFlip.value))
  {
    var data := map["newGestureAppState" := JString(StateName(d.newGestureAppState))];
    var data := if d.slideShowInterval.Some? then data["slideShowInterval" := JNumber(d.slideShowInterval.value as real)] else data;
    var data := if d.greyscale.Some? then data["greyscale" := JNumber(d.greyscale.value as real)] else data;
    var data := if d.randomFlip.Some? then data["randomFlip" := JBool(d.randomFlip.value)] else data;
    JObject(map["type" := JString("setGestureAppState"), "data" := JObject(data)])
  }

  /** Every encoded `setGestureAppState` message passes the envelope check and
      is recognised by its own guard and by no other. */
  lemma EncodedSetGestureAppStateIsRecognised(d: SetGestureAppStateData)
    ensures AsBaseMessage(EncodeSetGestureAppState(d)).Some?
    ensures var m := AsBaseMessage(EncodeSetGestureAppState(d)).value;
      IsSetGestureAppStateMessage(m) && KindOf(m) == Some(SetGestureAppStateKind)
  {
  }
}
