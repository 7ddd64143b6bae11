/** The `appInfo` snapshot (src/main/server/api/appInfo.ts): the server's
    ports and host, the privilege of the asking connection and the
    controller's current settings, as one record. */
module AppInfo {
  import opened Util
  import opened GestureAppTypes
  import opened Messages
  import GestureAppController

  /** `CreateWsServerProps`. */
  datatype ServerProps = ServerProps(httpPort: int, wsPort: int, host: string)

  /** `AppInfoMessage['data']`; `flipped` is optional. */
  datatype AppInfoData = AppInfoData(
    isPrivileged: bool,
    httpPort: int,
    wsPort: int,
    host: string,
    cwd: string,
    gestureAppState: GestureAppState,
    mediaFolder: string,
    currentMediaId: Option<string>,
    currentSlideShowInterval: int,
    greyscale: int,
    randomFlip: bool,
    flipped: Option<bool>)

  /** `appInfo`. `getCurrentGreyscale` and `getRandomFlip` are called on the
      controller but defined by no class, so their values come in as
      `greyscale` and `randomFlip`. */
  function BuildAppInfo(props: ServerProps, isPrivileged: bool, g: GestureAppController.GestureApp,
                        greyscale: int, randomFlip: bool): (info: AppInfoData)
    reads g
    ensures info.isPrivileged == isPrivileged
    ensures info.httpPort == props.httpPort && info.wsPort == props.wsPort && info.host == props.host
    ensures info.cwd == g.cwd
    ensures info.gestureAppState == g.GetState()
    ensures info.mediaFolder == g.GetMediaFolder()
    ensures info.currentMediaId == g.GetCurrentMediaId()
    ensures info.currentSlideShowInterval == g.GetCurrentSlideShowInterval()
    ensures info.greyscale == greyscale && info.randomFlip == randomFlip
    ensures info.flipped.None?
  {
    AppInfoData(isPrivileged, props.httpPort, props.wsPort, props.host, g.cwd,
                g.GetState(), g.GetMediaFolder(), g.GetCurrentMediaId(), g.GetCurrentSlideShowInterval(),
                greyscale, randomFlip, None)
  }

  /** The mode named by its wire name, if it names one. */
  function ParseStateName(s: string): (r: Option<GestureAppState>)
    ensures forall st :: r == Some(st) <==> s == StateName(st)
  {
    match s
    case "idle" => Some(Idle)
    case "slideshow" => Some(Slideshow)
    case "paused" => Some(Paused)
    case "singleImage" => Some(SingleImage)
    case _ => None
  }

  /** The parsed form of `JSON.stringify(info)`: an absent `flipped` is left
      out, a `null` current id is `null`. */
  function EncodeAppInfo(info: AppInfoData): Json {
    var fields := map[
      "isPrivileged" := JBool(info.isPrivileged),
      "httpPort" := JNumber(info.httpPort as real),
      "wsPort" := JNumber(info.wsPort as real),
      "host" := JString(info.host),
      "cwd" := JString(info.cwd),
      "gestureAppState" := JString(StateName(info.gestureAppState)),
      "mediaFolder" := JString(info.mediaFolder),
      "currentMediaId" := (if info.currentMediaId.Some? then JString(info.currentMediaId.value) else JNull),
      "currentSlideShowInterval" := JNumber(info.currentSlideShowInterval as real),
      "greyscale" := JNumber(info.greyscale as real),
      "randomFlip" := JBool(info.randomFlip)];
    JObject(if info.flipped.Some? then fields["flipped" := JBool(info.flipped.value)] else fields)
  }

  function GetBool(fields: map<string, Json>, key: string): Option<bool> {
    if key in fields && fields[key].JBool? then Some(fields[key].b) else None
  }

  function GetString(fields: map<string, Json>, key: string): Option<string> {
    if key in fields && fields[key].JString? then Some(fields[key].s) else None
  }

  /** A number field that holds an integer. */
  function GetInt(fields: map<string, Json>, key: string): Option<int> {
    if key in fields && fields[key].JNumber? && fields[key].n.Floor as real == fields[key].n
    then Some(fields[key].n.Floor) else None
  }

  /** What a client reads back from an `appInfo` payload; `None` when a
      field is missing or has the wrong kind. */
  function DecodeAppInfo(v: Json): Option<AppInfoData> {
    if !v.JObject? then None
    else
      var f := v.fields;
      var isPrivileged, httpPort, wsPort := GetBool(f, "isPrivileged"), GetInt(f, "httpPort"), GetInt(f, "wsPort");
      var host, cwd, mediaFolder := GetString(f, "host"), GetString(f, "cwd"), GetString(f, "mediaFolder");
      var stateName, interval := GetString(f, "gestureAppState"), GetInt(f, "currentSlideShowInterval");
      var greyscale, randomFlip := GetInt(f, "greyscale"), GetBool(f, "randomFlip");
      var currentMediaId: Option<Option<string>> :=
        if "currentMediaId" in f && f["currentMediaId"].JNull? then Some(None)
        else if "currentMediaId" in f && f["currentMediaId"].JString? then Some(Some(f["currentMediaId"].s))
        else None;
      var flipped: Option<Option<bool>> :=
        if "flipped" !in f then Some(None)
        else if f["flipped"].JBool? then Some(Some(f["flipped"].b))
        else None;
      if isPrivileged.None? || httpPort.None? || wsPort.None? || host.None? || cwd.None? ||
         stateName.None? || mediaFolder.None? || currentMediaId.None? || interval.None? ||
         greyscale.None? || randomFlip.None? || flipped.None?
      then None
      else
        match ParseStateName(stateName.value)
        case None => None
        case Some(st) =>
          Some(AppInfoData(isPrivileged.value, httpPort.value, wsPort.value, host.value, cwd.value, st,
                           mediaFolder.value, currentMediaId.value, interval.value, greyscale.value,
                           randomFlip.value, flipped.value))
  }

  /** The boolean and string fields of an encoded snapshot read back as stored. */
  lemma EncodedFlagsAndNames(info: AppInfoData)
    ensures var f := EncodeAppInfo(info).fields;
      GetBool(f, "isPrivileged") == Some(info.isPrivileged) &&
      GetBool(f, "randomFlip") == Some(info.randomFlip) &&
      GetString(f, "host") == Some(info.host) &&
      GetString(f, "cwd") == Some(info.cwd) &&
      GetString(f, "mediaFolder") == Some(info.mediaFolder) &&
      GetString(f, "gestureAppState") == Some(StateName(info.gestureAppState))
  {
  }

  /** The number fields of an encoded snapshot read back as the integers stored. */
  lemma EncodedNumbers(info: AppInfoData)
    ensures var f := EncodeAppInfo(info).fields;
      GetInt(f, "httpPort") == Some(info.httpPort) &&
      GetInt(f, "wsPort") == Some(info.wsPort) &&
      GetInt(f, "currentSlideShowInterval") == Some(info.currentSlideShowInterval) &&
      GetInt(f, "greyscale") == Some(info.greyscale)
  {
    var f := EncodeAppInfo(info).fields;
    assert f["httpPort"] == JNumber(info.httpPort as real);
    assert f["wsPort"] == JNumber(info.wsPort as real);
    assert f["currentSlideShowInterval"] == JNumber(info.currentSlideShowInterval as real);
    assert f["greyscale"] == JNumber(info.greyscale as real);
  }

  /** The optional fields: the current id is always present (as `null` when
      unset) and `flipped` is present exactly when set. */
  lemma EncodedOptionals(info: AppInfoData)
    ensures var f := EncodeAppInfo(info).fields;
      "currentMediaId" in f &&
      f["currentMediaId"] == (if info.currentMediaId.Some? then JString(info.currentMediaId.value) else JNull) &&
      ("flipped" in f <==> info.flipped.Some?) &&
      (info.flipped.Some? ==> f["flipped"] == JBool(info.flipped.value))
  {
  }

  /** Every snapshot survives the trip through JSON unchanged. */
  lemma DecodeEncodeAppInfo(info: AppInfoData)
    ensures DecodeAppInfo(EncodeAppInfo(info)) == Some(info)
  {
    EncodedFlagsAndNames(info);
    EncodedNumbers(info);
    EncodedOptionals(info);
    assert ParseStateName(StateName(info.gestureAppState)) == Some(info.gestureAppState);
  }

  /** The reply to `appInfo`, `{ type: "appInfo", data: info }`, passes the
      envelope check and is recognised as an `appInfo` message. */
  lemma AppInfoReplyIsRecognised(info: AppInfoData)
    ensures var reply := JObject(map["type" := JString("appInfo"), "data" := EncodeAppInfo(info)]);
      AsBaseMessage(reply).Some? && IsAppInfoMessage(AsBaseMessage(reply).value) &&
      DecodeAppInfo(AsBaseMessage(reply).value.data) == Some(info)
  {
    DecodeEncodeAppInfo(info);
  }
}
