# GesturesDrawingAssistant core, modelled in Dafny

GesturesDrawingAssistant is an Electron desktop app that runs a timed
slideshow of reference images for gesture drawing. Browsers on the local
network connect to it over WebSocket. This project models its core logic and
proves properties of the model:

- **Presentation controller** (`GestureApp.ts`, module `GestureAppController`).
  - The modes `idle`, `slideshow`, `paused` and `singleImage`.
  - The media-id table, which maps generated ids to image paths.
  - The current media id and the slide-show interval.
  - The single repeating timer, which walks a shuffled playlist.
  - Every `dispatchEvent` is recorded in an event log.
- **Minimal mode holder** (`gestureApp.ts`, module `GestureAppMinimal`). This
  is the class the main process builds; it switches mode and announces the change.
- **Helpers** (`helpers.ts`, module `Helpers`): the privilege predicate
  `isLocalhost`, and the in-place Fisher–Yates `shuffleArray` on an `array`.
- **Message envelope and type guards** (`messages.ts`, module `Messages`),
  over a datatype of parsed JSON values. JavaScript's `typeof` is modelled
  exactly, so `null` and arrays count as `"object"`.
- **WebSocket router** (`wsServer.ts`, module `WsServer`):
  - the list of replies one inbound message earns;
  - the table of connected clients, each with its privilege flag.
- **Snapshot** (`appInfo.ts`, module `AppInfo`): the `appInfo` record, plus
  its JSON form and a decoder for that form.
- **Folder listing** (`listFolder.ts`, module `ListFolder`): the hidden-name
  filter and the split into folder names and a file count.
- **Local address choice** (`network.ts`, module `Network`): the first
  external IPv4 address, else `127.0.0.1`.
- **Start screen** (`StartActivity.tsx`, module `StartActivity`):
  - the interval label `intervalText`;
  - the preset intervals;
  - validation of the start form into a `setGestureAppState` message.

Shared pieces are in two more modules:

- `Util`: `Option`, and decimal numerals (`${n}`).
- `GestureAppTypes`: the mode and event datatypes.

Collaborators outside the core appear as values:

- The SQLite settings table is the map `settings`.
- `listImagesInFolder` is a function fixed when the controller is built.
- `crypto.randomUUID` is a counter; its n-th id is `FreshUuid(n)`.
- `setInterval` and `clearInterval`:
  - a handle counter;
  - a ghost set of timers that are still scheduled;
  - an explicit `Tick` method for each firing.
- `Math.random` in the shuffle is a nondeterministic choice of a partner in `[0, i]`.
- The directory listing, its `stat` results and `os.networkInterfaces()` are inputs.

Behaviour of the code that the model keeps as written:

- Each `getMediaIdsList` scan adds fresh ids and keeps the earlier ones, so
  old ids keep resolving until `setMediaFolder` clears the table
  (`GestureApp.ts:64-72`).
- `setMediaFolder` sets the current id to `""` (`GestureApp.ts:60`).
- `switchState` does nothing for `paused` and `singleImage` (`GestureApp.ts:42-52`).
- The router has cases for three message types only:
  - `appInfo`. It is answered only for an instance that has every getter
    `appInfo` calls. The instance the main process builds (`index.ts:39`,
    the minimal class) lacks them, so `appInfo()` throws. The `catch`
    swallows the throw, and the request gets no reply (`WsServer.DispatchMinimal`).
  - `getCurrentState`, which a privileged client gets twice.
  - `getFSDrives`, privileged clients only.

  Every other type gets no reply, including `setMediaFolder`,
  `listFolderRequest` and `setGestureAppState`.

## Model

| member | source | states |
|---|---|---|
| Messages.TypeOf | src/domain/messages.ts:10 | `typeof` is `"object"` exactly for null, arrays and objects, and `"string"` exactly for strings |
| Messages.IsBaseMessage | src/domain/messages.ts:9-16 | false for null and every non-object; true iff `type` exists with a string value and `data` exists with a non-null object value (arrays included) |
| Messages.AsBaseMessage | src/domain/messages.ts:9-16 | defined exactly when the envelope check passes, carrying that message's `type` and `data` |
| Messages.KindOf | src/domain/messages.ts:36-112 | a message has kind k iff its `type` is k's literal |
| Messages.GuardsExclusive | src/domain/messages.ts:36-112 | no message satisfies two different type guards |
| Messages.IsAppInfoMessage | src/domain/messages.ts:36 | holds iff the type is `appInfo` |
| Messages.IsListFolderMessage | src/domain/messages.ts:44 | holds iff the type is `listFolder` |
| Messages.IsListFolderRequestMessage | src/domain/messages.ts:53 | holds iff the type is `listFolderRequest` |
| Messages.IsSetMediaFolderMessage | src/domain/messages.ts:63 | holds iff the type is `setMediaFolder` |
| Messages.IsChangeCurrentSlideShowIntervalMessage | src/domain/messages.ts:74 | holds iff the type is `changeCurrentSlideShowInterval` |
| Messages.IsSetGestureAppStateMessage | src/domain/messages.ts:85 | holds iff the type is `setGestureAppState` |
| Messages.IsGestureAppCurrentMediaIdMessage | src/domain/messages.ts:95 | holds iff the type is `gestureAppCurrentMediaId` |
| Messages.IsAppInfoUpdateMessage | src/domain/messages.ts:102 | holds iff the type is `appInfoUpdate` |
| Messages.IsGestureAppSwitchMediaMessage | src/domain/messages.ts:112 | holds iff the type is `gestureAppSwitchMedia` |
| Messages.EncodeSetGestureAppState | src/renderer/components/privileged/screens/StartActivity.tsx:77-85 | the start message has exactly `type` and `data`; `data` always names the mode and holds each optional field exactly when it is set, with the value set (numbers as JSON numbers, the flag as a boolean) |
| Messages.EncodedSetGestureAppStateIsRecognised | src/domain/messages.ts:75-85 | every encoded `setGestureAppState` message passes the envelope check and has exactly that kind |
| Helpers.IsLocalhost | src/domain/helpers.ts:1 | false for an unknown address; true iff the address is the host, `127.0.0.1`, `::1` or `localhost` |
| Helpers.Swap | src/domain/helpers.ts:7 | exchanges the two positions and leaves every other position as it was |
| Helpers.SwapPermutes | src/domain/helpers.ts:7 | one swap keeps the multiset of elements |
| Helpers.ApplySwapsPermutes | src/domain/helpers.ts:4-10 | any in-bounds sequence of swaps keeps the multiset of elements |
| Helpers.ShuffleArray | src/domain/helpers.ts:4-10 | returns the same array, rearranged by a Fisher–Yates schedule (upper index from `len-1` down to 1, partner at or below it); a permutation of the input; arrays of length 0 or 1 unchanged |
| Helpers.Shuffled | src/main/GestureApp.ts:112 | shuffling a copy of the id list yields a permutation of it of the same length, by the same schedule |
| GestureAppController.FreshUuidInjective | src/main/GestureApp.ts:69 | distinct calls of the id generator give distinct ids |
| GestureAppController.FreshIds | src/main/GestureApp.ts:68-70 | the ids of a run of calls, one per call and in call order |
| GestureAppController.FreshIdsDistinct | src/main/GestureApp.ts:69 | a run of calls never repeats an id |
| GestureAppController.FreshIdsSplit | src/main/GestureApp.ts:68-70 | the ids of two consecutive runs are the first run's followed by the second's |
| GestureAppController.IdTableDistinct | src/main/GestureApp.ts:64 | the listed keys of a consistent id table are pairwise distinct |
| GestureAppController.IdTableFresh | src/main/GestureApp.ts:69 | an id from a call not made yet is not in the table |
| GestureAppController.RegisterKeys | src/main/GestureApp.ts:68-70 | after a scan the keys are the old keys plus exactly one fresh id per listed file |
| GestureAppController.RegisterKeepsOld | src/main/GestureApp.ts:66-72 | a scan never removes or overwrites an existing entry |
| GestureAppController.RegisterResolves | src/main/GestureApp.ts:68-70 | each new id resolves to its own file |
| GestureAppController.FreshIdsNotInTable | src/main/GestureApp.ts:68-70 | the ids a scan adds were not in the table before |
| GestureAppController.IdTableEmpty | src/main/GestureApp.ts:61 | the cleared table is consistent |
| GestureAppController.IdTableInsert | src/main/GestureApp.ts:69 | storing a file under the next fresh id keeps the table consistent |
| GestureAppController.InsertFresh | src/main/GestureApp.ts:68-70 | the `forEach` loop leaves the table equal to the registration of all files under consecutive fresh ids, keys appended in order |
| GestureAppController.TimerDisciplineAtMostOne | src/main/GestureApp.ts:104-117 | the timer invariant allows at most one scheduled timer |
| GestureAppController.GestureApp.AtMostOneTimer | src/main/GestureApp.ts:101-130 | in every reachable state at most one repeating timer is scheduled |
| GestureAppController.GestureApp.constructor | src/main/GestureApp.ts:11-18 | starts `idle`, no current id, interval 30000, empty id table, no timer, no events |
| GestureAppController.GestureApp.GetState | src/main/GestureApp.ts:28-30 | the current mode; no contract of its own, and its value after every state change is stated by `SetState`, `SwitchState`, `StartSlideShow` and `StopSlideShow` |
| GestureAppController.GestureApp.GetCurrentMediaId | src/main/GestureApp.ts:80-82 | the current id, `null` until first set; no contract of its own, and its value after each change is stated by `SetCurrentMediaId`, `SetMediaFolder`, `StartSlideShow` and `Tick` |
| GestureAppController.GestureApp.GetCurrentSlideShowInterval | src/main/GestureApp.ts:91-93 | the current interval; no contract of its own, and its value is stated by the constructor and `SetCurrentSlideShowInterval` |
| GestureAppController.GestureApp.GetSetting | src/main/GestureApp.ts:24-26 | the stored value for a key, or none when the key is absent |
| GestureAppController.GestureApp.GetMediaFolder | src/main/GestureApp.ts:54-56 | the persisted `media_folder`, or the working directory when none is persisted |
| GestureAppController.GestureApp.GetMediaIdFilePath | src/main/GestureApp.ts:74-76 | the path stored for the id, `""` for an unknown id; an absent id is looked up as `""` |
| GestureAppController.GestureApp.EmptyTableResolvesNothing | src/main/GestureApp.ts:58-76 | after the table is cleared every id resolves to `""` |
| GestureAppController.GestureApp.SetState | src/main/GestureApp.ts:32-40 | same state: nothing changes, no event; otherwise the state becomes `s` with exactly one `changeState(s)` event |
| GestureAppController.GestureApp.SwitchState | src/main/GestureApp.ts:42-52 | no-op for the current state; `slideshow` has the start effect, `idle` the stop effect, `paused` and `singleImage` change nothing |
| GestureAppController.GestureApp.SetMediaFolder | src/main/GestureApp.ts:58-62 | persists the folder (read back by `GetMediaFolder`), sets the current id to `""` with one event, empties the id table |
| GestureAppController.GestureApp.GetMediaIdsList | src/main/GestureApp.ts:66-72 | registers every image under a fresh id keeping old ones and returns all ids in insertion order; mode, current id, timer and events untouched |
| GestureAppController.GestureApp.SetCurrentSlideShowInterval | src/main/GestureApp.ts:86-89 | stores the interval and emits one `changeCurrentSlideShowInterval` event; a running timer keeps its delay |
| GestureAppController.GestureApp.SetCurrentMediaId | src/main/GestureApp.ts:95-99 | stores the id and emits one `changeCurrentMediaId` event, even if unchanged |
| GestureAppController.GestureApp.StartSlideShow | src/main/GestureApp.ts:103-122 | clears the old timer, scans; empty accumulated id list: mode, current id and events unchanged and no timer scheduled; otherwise the playlist is a permutation of the ids, the first becomes current, `changeCurrentMediaId` precedes `changeState`, state `slideshow`, exactly one new timer |
| GestureAppController.GestureApp.Play | src/main/GestureApp.ts:112-121 | a non-empty list is shuffled, its first id made current, `slideshow` entered and one timer scheduled with the current interval |
| GestureAppController.GestureApp.Announce | src/main/GestureApp.ts:114-116 | the id event comes before the state event, and the state event only when the state changes |
| GestureAppController.GestureApp.Schedule | src/main/GestureApp.ts:117-121 | a fresh handle names the one scheduled timer, capturing the list, the start index and the current interval |
| GestureAppController.GestureApp.Tick | src/main/GestureApp.ts:117-121 | the index advances by one modulo the playlist length and stays in range; the id at it becomes current with one event |
| GestureAppController.GestureApp.StopSlideShow | src/main/GestureApp.ts:124-130 | no timer left, handle `null`, state `idle`; a `changeState` event only if the state was not already `idle`, so a second stop emits nothing |
| GestureAppTypes.LastStateEventAppend | src/main/gestureApp.ts:19-26 | appending one event changes the reported state only when it is a `changeState` event, and then to that event's state |
| GestureAppMinimal.GestureApp.constructor | src/main/gestureApp.ts:9 | the initial state is `idle` with no events |
| GestureAppMinimal.GestureApp.GetState | src/main/gestureApp.ts:15-17 | the target of the last `changeState` event, `idle` before any |
| GestureAppMinimal.GestureApp.SwitchState | src/main/gestureApp.ts:19-26 | any target from any state: unchanged and silent if already there, else the new state with exactly one `changeState` event |
| AppInfo.BuildAppInfo | src/main/server/api/appInfo.ts:5-21 | privilege as passed; ports and host copied from the server props; cwd is the process's working directory, which the model holds as the controller's `cwd` constant; mode, folder, current id and interval read from the controller; `flipped` never set |
| AppInfo.ParseStateName | src/domain/gestureApp.ts:2 | a text names a mode iff it is that mode's wire name |
| AppInfo.EncodedFlagsAndNames | src/domain/messages.ts:20-33 | the boolean and string fields of the JSON snapshot read back as stored |
| AppInfo.EncodedNumbers | src/domain/messages.ts:20-33 | the number fields of the JSON snapshot read back as the integers stored |
| AppInfo.EncodedOptionals | src/domain/messages.ts:28-32 | the current id is always present (`null` when unset); `flipped` is present iff set |
| AppInfo.DecodeEncodeAppInfo | src/domain/messages.ts:18-34 | every snapshot survives the JSON round trip unchanged; the decoder is the model's own partner of the encoding, since the client only checks the envelope and reads fields |
| AppInfo.AppInfoReplyIsRecognised | src/main/server/wsServer.ts:62-64 | the `appInfo` reply passes the client's envelope check, is an `appInfo` message and decodes to the snapshot |
| WsServer.PrivilegedReplies | src/main/server/wsServer.ts:43-59 | the privileged `switch`: one reply for `getFSDrives` or `getCurrentState`, none otherwise, each with the inbound type and never a snapshot |
| WsServer.CommonReplies | src/main/server/wsServer.ts:61-74 | the common `switch`: one reply for `getCurrentState`, one for `appInfo` when the snapshot could be built, none otherwise, each with the inbound type and never drives |
| WsServer.Respond | src/main/server/wsServer.ts:28-78 | no reply for unparseable or invalid messages; every reply echoes the inbound type; `appInfo` gets one snapshot reply when the instance has every getter, and none when building the snapshot throws; `getFSDrives` gets `["C:","D:","E:"]` iff privileged; `getCurrentState` gets two replies if privileged, one otherwise; other types get none; unprivileged clients never get drives |
| WsServer.Dispatch | src/main/server/wsServer.ts:43-74 | a snapshot reply carries the connection's privilege, the host and the controller's mode; a state reply carries the controller's mode |
| WsServer.DispatchMinimal | src/main/server/wsServer.ts:61-77 | with the instance the main process builds, no reply is ever a snapshot and `appInfo` gets no reply (the getters it calls are missing, so it throws into the `catch`); state replies carry the mode of the last `changeState` |
| WsServer.RespondAtMostTwo | src/main/server/wsServer.ts:43-74 | at most two replies, and two exactly for a privileged `getCurrentState` |
| WsServer.ReplyIsBaseMessage | src/main/server/wsServer.ts:39-41 | a sent reply passes the envelope check with its own type; an `appInfo` reply decodes to its snapshot |
| WsServer.RepliesAreBaseMessages | src/main/server/wsServer.ts:38-41 | every reply to a message passes the envelope check with the inbound type, and snapshot replies decode to the snapshot |
| WsServer.SetGestureAppStateGetsNoReply | src/main/server/wsServer.ts:61-74 | the start screen's `setGestureAppState` message earns no reply |
| WsServer.ClientTable.constructor | src/main/server/wsServer.ts:80 | the table starts empty |
| WsServer.UpdateSize | src/main/server/wsServer.ts:89 | setting a connection's entry grows the table by one exactly when the connection is new |
| WsServer.RemoveSize | src/main/server/wsServer.ts:92 | deleting a connection's entry shrinks the table by one exactly when it was present |
| WsServer.ClientTable.Connect | src/main/server/wsServer.ts:86-90 | privilege is computed once from the peer address (host or loopback literal) and stored for this connection; the table invariant ties every stored flag to its connect-time address; `size` rises by one for a new connection and stays the same for a known one |
| WsServer.ClientTable.Close | src/main/server/wsServer.ts:92-93 | exactly this connection leaves the table, and the others keep their entries; `size` falls by one when it was present and stays the same otherwise |
| WsServer.ClientTable.Size | src/main/server/wsServer.ts:95-99 | the number of connections in the table, whose changes `Connect` and `Close` state |
| ListFolder.Visible | src/main/server/api/listFolder.ts:8 | an entry survives iff hidden names are shown or its name does not start with `.`; everything survives with `showHidden` |
| ListFolder.VisibleAppend | src/main/server/api/listFolder.ts:8 | the filter keeps listing order: it works part by part on a split listing, and one entry survives exactly when it is kept |
| ListFolder.ListFolder | src/main/server/api/listFolder.ts:7-27 | the resolved path; the names of the surviving directory entries in listing order; the count of surviving entries that were stat'ed and are not directories |
| ListFolder.PartitionCounts | src/main/server/api/listFolder.ts:14-25 | folders, files and failed stats partition the entries, so folders plus files is at most the entry count, with equality when no stat fails |
| ListFolder.DirectoryNamesAppend | src/main/server/api/listFolder.ts:14-18 | folder names keep listing order across any split of the listing |
| ListFolder.DirectoryNamesMembers | src/main/server/api/listFolder.ts:16-18 | a name is reported iff some entry of that name is a directory |
| ListFolder.HiddenFoldersExcluded | src/main/server/api/listFolder.ts:8-18 | by default a name is reported iff it is a directory entry not starting with `.` |
| Network.FirstQualifyingSpec | src/main/network.ts:13-17 | nothing found iff no entry is external IPv4; otherwise the address of a qualifying entry with none before it |
| Network.LocalIpOf | src/main/network.ts:3-20 | `127.0.0.1` when nothing qualifies; always `127.0.0.1` or a qualifying entry's address |
| Network.FlattenAppend | src/main/network.ts:6-17 | interfaces are visited in order, each one's entries in order |
| Network.FirstQualifyingAppend | src/main/network.ts:6-17 | the first match in two listings is the first listing's, else the second's |
| Network.UndefinedSlotSkipped | src/main/network.ts:8-10 | an `undefined` interface slot anywhere does not change the result |
| Network.FirstAt | src/main/network.ts:13-15 | a qualifying entry with none before it is the one chosen |
| Network.FoundAt | src/main/network.ts:6-17 | the entry the early return takes is the first qualifying entry overall |
| Network.GetLocalIp | src/main/network.ts:3-20 | the nested loops with `continue` and early return compute the first external IPv4 address, else `127.0.0.1` |
| StartActivity.IntervalText | src/renderer/components/privileged/screens/StartActivity.tsx:93-103 | the label; no contract of its own, and what it yields is stated by `IntervalTextShape`, `IntervalTextEmpty` and `IntervalTextTrimmed` |
| StartActivity.SecondsPartRange | src/renderer/components/privileged/screens/StartActivity.tsx:94-98 | for non-negative ms the seconds part is `(ms div 1000) mod 60`, in `[0, 60)`; for negative ms both parts are non-positive |
| StartActivity.IntervalTextShape | src/renderer/components/privileged/screens/StartActivity.tsx:93-103 | the label is `"N min M s"`, `"N min"`, `"M s"` or `""`, each part shown only when positive, with N = ms div 60000 |
| StartActivity.IntervalTextEmpty | src/renderer/components/privileged/screens/StartActivity.tsx:99-101 | the label is empty iff ms < 1000 |
| StartActivity.IntervalTextTrimmed | src/renderer/components/privileged/screens/StartActivity.tsx:102 | a non-empty label has no leading or trailing white space |
| StartActivity.PredefinedIntervalsOnSlider | src/renderer/components/privileged/screens/StartActivity.tsx:14-23 | every preset lies in the slider's `[10000, 600000]`, is a multiple of its 1000 step, and the presets rise strictly |
| StartActivity.SignedValue | src/renderer/components/privileged/screens/StartActivity.tsx:65 | a number is read iff the text after the sign starts with a digit |
| StartActivity.ParseInt | src/renderer/components/privileged/screens/StartActivity.tsx:65 | `parseInt(s, 10)` is not `NaN` iff, after leading white space and one sign, a digit follows |
| StartActivity.ParseIntOfDigits | src/renderer/components/privileged/screens/StartActivity.tsx:65 | a run of digits reads as its value |
| StartActivity.ParseIntOfDecimal | src/renderer/components/privileged/screens/StartActivity.tsx:69 | a numeral reads back as the number it was written from |
| StartActivity.ParseIntRejects | src/renderer/components/privileged/screens/StartActivity.tsx:65-72 | the text `null` a missing field becomes, and the empty text, read as `NaN` |
| StartActivity.FieldText | src/renderer/components/privileged/screens/StartActivity.tsx:65-68 | a form field as text, with a missing field as `null`; what `parseInt` makes of that is stated by `ParseIntRejects` and `MissingIntervalSendsNothing` |
| StartActivity.StartSlideShowMessage | src/renderer/components/privileged/screens/StartActivity.tsx:60-86 | no message without a form or when interval or greyscale is `NaN`; otherwise mode `slideshow`, the parsed interval and greyscale, and `randomFlip` true iff the field is `"on"` |
| StartActivity.StartFromSliders | src/renderer/components/privileged/screens/StartActivity.tsx:73-86 | numerals from the sliders give a message with exactly those numbers, recognised as `setGestureAppState`, whose encoded `data` carries mode `slideshow` and those numbers |
| StartActivity.MissingIntervalSendsNothing | src/renderer/components/privileged/screens/StartActivity.tsx:65-68 | a form without an interval field sends nothing |

## Left out

- Real timers and wall-clock time. A timer is a handle plus a ghost set of
  scheduled timers, and each firing is an explicit `Tick`. The interleaving of
  ticks with commands is not modelled.
- `crypto.randomUUID`. It is a counter whose ids are decimal numerals, so
  freshness is proved rather than assumed. The real ids are random v4 UUIDs.
- `Math.random`. The model takes an arbitrary partner in `[0, i]`; uniformity
  of the shuffle is not modelled.
- SQLite (`database.ts`). The settings are a `map<string, string>` with
  insert-or-replace semantics.
- `listImagesInFolder`. It is imported by the controller but is not part of
  this model, so the controller takes it as a fixed function from folder to paths.
- Filesystem and OS calls: `readdirSync`, `statSync`, `path.resolve`,
  `process.cwd()` and `os.networkInterfaces()` are inputs.
- Transport: `parseMessage` (Buffer and UTF-8 decoding), `JSON.parse` text
  handling, `JSON.stringify`, `ws.send` and the `WebSocketServer`. The router
  starts from a parsed JSON value (`None` when parsing throws) and returns the
  replies instead of sending them.
- WsServer.Dispatch: exceptions inside the router's `try` are modelled for
  one case only, a snapshot that cannot be built (`DispatchMinimal`).
  `Dispatch` is stated for an instance that has every getter `appInfo` calls,
  but no class in the code modelled has all of them.
- `getCurrentGreyscale` and `getRandomFlip`. `appInfo` calls them, but they
  are defined on no class, so their values are parameters.
- GestureApp instance. The router is typed against the minimal class, while
  `appInfo` is typed against the controller. `Dispatch` is stated over the
  controller, which has every getter the two need except `getCurrentGreyscale`
  and `getRandomFlip`; those two values are parameters.
- `isLocalhost` import path. The router imports it from `src/main/helpers`,
  which is not part of this model; the one in `src/domain/helpers.ts` is used.
- The client table's `console` logging of `connectedClients.size`. The size
  itself is modelled (`Size`).
- Floating point:
  - `intervalText` is computed on exact numbers, which agrees with the code
    for integer milliseconds;
  - JSON numbers are exact reals;
  - the slide-show interval is an integer, while
    `setCurrentSlideShowInterval` accepts any JavaScript number, including
    fractions, `NaN` and `Infinity`;
  - `parseInt` results beyond the exactly representable integers are not modelled.
- `FormData.get` returning a `File`. Form fields are strings, and a missing one is `null`.
- `GestureAppStateEnum.SLIDESHOW`. It is not defined in the files modelled,
  and is taken to be `"slideshow"`.
- The React state setters of the start screen and the send itself.
- UI rendering, the HTTP server, the Electron entry points, the browser
  network client and `console` logging.
- Features that exist only as message types: media switching, pause,
  greyscale and random flip have no handler in the code modelled.
- StartActivity.ParseInt: negative numerals are read by the definition, but
  the read-back lemma covers only non-negative numerals, because the form's
  sliders produce only those.
