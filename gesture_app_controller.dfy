/** The presentation controller (src/main/GestureApp.ts): the mode, the media
    id table, the current media id, the slide-show interval and the single
    repeating timer that walks a shuffled playlist.

    External collaborators enter as values: the SQLite settings table is the
    map `settings`; `listImagesInFolder` is a function fixed at construction;
    `crypto.randomUUID` is a counter whose n-th id is `FreshUuid(n)`;
    `setInterval`/`clearInterval` are a handle allocator plus the ghost set
    `liveTimers` of timers that are still scheduled, and each firing of the
    live timer is an explicit call of `Tick`. `dispatchEvent` appends to `events`. */
module GestureAppController {
  import opened Util
  import opened GestureAppTypes
  import Helpers

  const DefaultSlideShowInterval: int := 30000
  const MediaFolderKey: string := "media_folder"

  /** The id the generator hands out on its n-th call. */
  function FreshUuid(n: nat): string {
    Decimal(n)
  }

  lemma FreshUuidInjective(a: nat, b: nat)
    requires FreshUuid(a) == FreshUuid(b)
    ensures a == b
  {
    DecimalInjective(a, b);
  }

  /** The ids of calls `start`, `start + 1`, ..., `start + n - 1`, in order. */
  function FreshIds(start: nat, n: nat): (ids: seq<string>)
    ensures |ids| == n
    ensures forall k :: 0 <= k < n ==> ids[k] == FreshUuid(start + k)
    decreases n
  {
    if n == 0 then [] else FreshIds(start, n - 1) + [FreshUuid(start + n - 1)]
  }

  /** The generator never repeats itself: a run of calls yields distinct ids. */
  lemma FreshIdsDistinct(start: nat, n: nat)
    ensures forall i, j :: 0 <= i < j < n ==> FreshIds(start, n)[i] != FreshIds(start, n)[j]
  {
    forall i, j | 0 <= i < j < n ensures FreshIds(start, n)[i] != FreshIds(start, n)[j] {
      if FreshIds(start, n)[i] == FreshIds(start, n)[j] {
        FreshUuidInjective(start + i, start + j);
      }
    }
  }

  /** The ids of consecutive runs of calls, one run after the other. */
  lemma FreshIdsSplit(start: nat, a: nat, b: nat)
    ensures FreshIds(start, a + b) == FreshIds(start, a) + FreshIds(start + a, b)
  {
    var lhs, rhs := FreshIds(start, a + b), FreshIds(start, a) + FreshIds(start + a, b);
    forall k | 0 <= k < a + b ensures lhs[k] == rhs[k] {
      if k >= a {
        assert rhs[k] == FreshIds(start + a, b)[k - a];
      }
    }
  }

  /** The id table after `files[k]` is stored under the id of call `start + k`, in order. */
  function Register(m: map<string, string>, start: nat, files: seq<string>): map<string, string>
    decreases |files|
  {
    if files == [] then m
    else Register(m, start, files[..|files| - 1])[FreshUuid(start + |files| - 1) := files[|files| - 1]]
  }

  /** A JavaScript `Map` from ids to paths, given as its entries and its keys
      in insertion order, after `counter` calls of the generator: the keys are
      exactly the ids of the last `|order|` calls, in the order they were made. */
  ghost predicate IdTable(m: map<string, string>, order: seq<string>, counter: nat) {
    |order| <= counter &&
    order == FreshIds(counter - |order|, |order|) &&
    (forall id :: id in m <==> id in order)
  }

  /** No key of the table is listed twice. */
  lemma IdTableDistinct(m: map<string, string>, order: seq<string>, counter: nat)
    requires IdTable(m, order, counter)
    ensures forall i, j :: 0 <= i < j < |order| ==> order[i] != order[j]
  {
    FreshIdsDistinct(counter - |order|, |order|);
  }

  /** An id from a call not made yet is not in the table. */
  lemma IdTableFresh(m: map<string, string>, order: seq<string>, counter: nat, n: nat)
    requires IdTable(m, order, counter) && counter <= n
    ensures FreshUuid(n) !in m
  {
    if FreshUuid(n) in m {
      var k :| 0 <= k < |order| && order[k] == FreshUuid(n);
      FreshUuidInjective(counter - |order| + k, n);
    }
  }

  /** Registering a listing adds exactly the ids of the calls made for it. */
  lemma {:induction false} RegisterKeys(m: map<string, string>, start: nat, files: seq<string>)
    ensures forall id :: id in Register(m, start, files) <==> id in m || id in FreshIds(start, |files|)
    decreases |files|
  {
    if files != [] {
      RegisterKeys(m, start, files[..|files| - 1]);
    }
  }

  /** Registering a listing under fresh ids keeps every old entry. */
  lemma {:induction false} RegisterKeepsOld(m: map<string, string>, order: seq<string>, start: nat, files: seq<string>)
    requires IdTable(m, order, start)
    ensures forall id :: id in m ==> id in Register(m, start, files) && Register(m, start, files)[id] == m[id]
    decreases |files|
  {
    if files != [] {
      var n := |files| - 1;
      RegisterKeepsOld(m, order, start, files[..n]);
      IdTableFresh(m, order, start, start + n);
    }
  }

  /** Registering a listing resolves each new id to its own file. */
  lemma {:induction false} RegisterResolves(m: map<string, string>, start: nat, files: seq<string>)
    ensures forall k :: 0 <= k < |files| ==>
      FreshIds(start, |files|)[k] in Register(m, start, files) &&
      Register(m, start, files)[FreshIds(start, |files|)[k]] == files[k]
    decreases |files|
  {
    if files != [] {
      var n := |files| - 1;
      var prefix := files[..n];
      RegisterResolves(m, start, prefix);
      var before := Register(m, start, prefix);
      var ids := FreshIds(start, |files|);
      forall k | 0 <= k < n
        ensures ids[k] != ids[n] && ids[k] in before && before[ids[k]] == files[k]
      {
        if ids[k] == ids[n] { FreshUuidInjective(start + k, start + n); }
        assert FreshIds(start, n)[k] == ids[k];
        assert prefix[k] == files[k];
      }
    }
  }

  /** The ids handed out for a new listing were not in the table before. */
  lemma FreshIdsNotInTable(m: map<string, string>, order: seq<string>, start: nat, n: nat)
    requires IdTable(m, order, start)
    ensures forall id :: id in FreshIds(start, n) ==> id !in m
  {
    forall k | 0 <= k < n ensures FreshIds(start, n)[k] !in m {
      IdTableFresh(m, order, start, start + k);
    }
  }

  /** Forgetting every id leaves an empty, consistent table. */
  lemma IdTableEmpty(counter: nat)
    ensures IdTable(map[], [], counter)
  {
  }

  /** Storing a file under the next fresh id keeps the table consistent. */
  lemma IdTableInsert(m: map<string, string>, order: seq<string>, counter: nat, file: string)
    requires IdTable(m, order, counter)
    ensures IdTable(m[FreshUuid(counter) := file], order + [FreshUuid(counter)], counter + 1)
  {
  }

  /** What the `forEach` of `getMediaIdsList` has built after its first `k` files. */
  ghost predicate InsertedPrefix(m: map<string, string>, order: seq<string>, counter: nat, files: seq<string>, k: nat,
                                 m': map<string, string>, order': seq<string>, counter': nat) {
    k <= |files| && counter' == counter + k &&
    m' == Register(m, counter, files[..k]) &&
    order' == order + FreshIds(counter, k) &&
    IdTable(m', order', counter')
  }

  /** One more file stored under the next fresh id extends the prefix by one. */
  lemma InsertStep(m: map<string, string>, order: seq<string>, counter: nat, files: seq<string>, k: nat,
                   m': map<string, string>, order': seq<string>, counter': nat)
    requires InsertedPrefix(m, order, counter, files, k, m', order', counter') && k < |files|
    ensures InsertedPrefix(m, order, counter, files, k + 1,
                           m'[FreshUuid(counter') := files[k]], order' + [FreshUuid(counter')], counter' + 1)
  {
    IdTableInsert(m', order', counter', files[k]);
    assert files[..k + 1][..k] == files[..k];
    assert FreshIds(counter, k + 1) == FreshIds(counter, k) + [FreshUuid(counter')];
  }

  /** The `forEach` of `getMediaIdsList`: each file is `set` under a fresh id. */
  method InsertFresh(m: map<string, string>, order: seq<string>, counter: nat, files: seq<string>)
    returns (m': map<string, string>, order': seq<string>, counter': nat)
    requires IdTable(m, order, counter)
    ensures IdTable(m', order', counter')
    ensures counter' == counter + |files|
    ensures m' == Register(m, counter, files)
    ensures order' == order + FreshIds(counter, |files|)
  {
    m', order', counter' := m, order, counter;
    var k := 0;
    assert order + FreshIds(counter, 0) == order;
    while k < |files|
      invariant InsertedPrefix(m, order, counter, files, k, m', order', counter')
      decreases |files| - k
    {
      var id := FreshUuid(counter');
      InsertStep(m, order, counter, files, k, m', order', counter');
      m' := m'[id := files[k]];
      order' := order' + [id];
      counter' := counter' + 1;
      k := k + 1;
    }
    assert files[..k] == files;
  }

  /** At most one timer is scheduled, it is the one the handle names, every
      handle handed out is below `nextHandle`, and while a timer is scheduled
      its callback's index lies inside its list. */
  ghost predicate TimerDiscipline(handle: Option<nat>, nextHandle: nat, live: set<nat>, list: seq<string>, index: nat) {
    live <= (if handle.Some? then {handle.value} else {}) &&
    (forall t :: t in live ==> t < nextHandle) &&
    (live != {} ==> index < |list|)
  }

  lemma TimerDisciplineAtMostOne(handle: Option<nat>, nextHandle: nat, live: set<nat>, list: seq<string>, index: nat)
    requires TimerDiscipline(handle, nextHandle, live, list, index)
    ensures |live| <= 1
  {
    if handle.Some? && live != {} {
      assert live == {handle.value};
    }
  }

  class GestureApp {
    /** `process.cwd()`, the fallback media folder. */
    const cwd: string
    /** `listImagesInFolder({ folderPath })`, the image paths found under a folder. */
    const listImagesInFolder: string -> seq<string>

    /** The `settings` table of the database. */
    var settings: map<string, string>

    var state: GestureAppState
    var currentMediaId: Option<string>
    var currentSlideShowInterval: int

    /** `mediaIdsMap`, and its keys in insertion order (a JavaScript `Map` iterates in that order). */
    var mediaIdsMap: map<string, string>
    var mediaIdOrder: seq<string>
    /** How many ids the generator has handed out. */
    var uuidCounter: nat

    /** `slideShowInterval`, the handle of the last timer created, or `null`. */
    var slideShowInterval: Option<nat>
    /** The handle the next `setInterval` returns. */
    var nextHandle: nat
    /** Timers created and not yet cleared. */
    ghost var liveTimers: set<nat>
    /** The `list` and `currentIndex` captured by the timer's callback, and its delay. */
    var playlist: seq<string>
    var currentIndex: nat
    var tickDelay: int

    /** Every event dispatched so far, oldest first. */
    var events: seq<GestureAppEvent>

    ghost predicate Valid()
      reads this
    {
      IdTable(mediaIdsMap, mediaIdOrder, uuidCounter) &&
      TimerDiscipline(slideShowInterval, nextHandle, liveTimers, playlist, currentIndex) &&
      // the state is the one the last `changeState` event announced
      state == LastStateEvent(events)
    }

    /** At most one repeating timer is ever scheduled. */
    lemma AtMostOneTimer()
      requires Valid()
      ensures |liveTimers| <= 1
    {
      TimerDisciplineAtMostOne(slideShowInterval, nextHandle, liveTimers, playlist, currentIndex);
    }

    constructor (cwd: string, listImagesInFolder: string -> seq<string>, settings: map<string, string>)
      ensures Valid()
      ensures this.cwd == cwd && this.listImagesInFolder == listImagesInFolder && this.settings == settings
      ensures state == Idle && currentMediaId == None && currentSlideShowInterval == DefaultSlideShowInterval
      ensures mediaIdsMap == map[] && mediaIdOrder == [] && uuidCounter == 0
      ensures slideShowInterval == None && liveTimers == {} && events == []
    {
      this.cwd := cwd;
      this.listImagesInFolder := listImagesInFolder;
      this.settings := settings;
      state := Idle;
      currentMediaId := None;
      currentSlideShowInterval := DefaultSlideShowInterval;
      mediaIdsMap := map[];
      mediaIdOrder := [];
      uuidCounter := 0;
      slideShowInterval := None;
      nextHandle := 0;
      liveTimers := {};
      playlist := [];
      currentIndex := 0;
      tickDelay := DefaultSlideShowInterval;
      events := [];
    }

    // ---- frame shorthands -------------------------------------------------

    twostate predicate StoreUnchanged()
      reads this
    {
      unchanged(`settings, `mediaIdsMap, `mediaIdOrder, `uuidCounter)
    }

    twostate predicate TimerUnchanged()
      reads this
    {
      unchanged(`slideShowInterval, `nextHandle) &&
      unchanged(`liveTimers, `playlist) &&
      unchanged(`currentIndex, `tickDelay)
    }

    twostate predicate NothingChanged()
      reads this
    {
      StoreUnchanged() && TimerUnchanged() && unchanged(`state) &&
      unchanged(`currentMediaId) &&
      unchanged(`currentSlideShowInterval, `events)
    }

    // ---- getters ----------------------------------------------------------

    function GetState(): GestureAppState
      reads this
    {
      state
    }

    function GetSetting(key: string): (r: Option<string>)
      reads this
      ensures r.Some? <==> key in settings
      ensures r.Some? ==> r.value == settings[key]
    {
      if key in settings then Some(settings[key]) else None
    }

    /** The persisted media folder, or the working directory when none is persisted. */
    function GetMediaFolder(): (folder: string)
      reads this
      ensures MediaFolderKey in settings ==> folder == settings[MediaFolderKey]
      ensures MediaFolderKey !in settings ==> folder == cwd
    {
      match GetSetting(MediaFolderKey)
      case Some(f) => f
      case None => cwd
    }

    /** The images `getMediaIdsList` lists: those under the media folder. */
    function ImagesOfMediaFolder(): seq<string>
      reads this
    {
      listImagesInFolder(GetMediaFolder() + "/")
    }

    /** The file an id stands for, or `""` for an unknown id or none. */
    function GetMediaIdFilePath(mediaId: Option<string>): (path: string)
      reads this
      ensures mediaId.None? ==> path == (if "" in mediaIdsMap then mediaIdsMap[""] else "")
      ensures mediaId.Some? && mediaId.value !in mediaIdsMap ==> path == ""
      ensures mediaId.Some? && mediaId.value in mediaIdsMap ==> path == mediaIdsMap[mediaId.value]
    {
      var id := if mediaId.Some? then mediaId.value else "";
      if id in mediaIdsMap then mediaIdsMap[id] else ""
    }

    /** Once the table is emptied (as `setMediaFolder` does), no id resolves
        to a file. */
    lemma EmptyTableResolvesNothing()
      requires mediaIdsMap == map[]
      ensures forall id :: GetMediaIdFilePath(Some(id)) == ""
      ensures GetMediaIdFilePath(None) == ""
    {
    }

    function GetCurrentMediaId(): Option<string>
      reads this
    {
      currentMediaId
    }

    function GetCurrentSlideShowInterval(): int
      reads this
    {
      currentSlideShowInterval
    }

    // ---- state changes ----------------------------------------------------

    /** `setState`: a transition to the current state is ignored; any other
        one is made and announced by exactly one `changeState` event. */
    method SetState(s: GestureAppState)
      requires Valid()
      modifies this
      ensures Valid()
      ensures state == s
      ensures events == old(events) + (if old(state) == s then [] else [ChangeState(s)])
      ensures StoreUnchanged() && TimerUnchanged()
      ensures unchanged(`currentMediaId, `currentSlideShowInterval)
    {
      if state == s {
        return;
      }
      LastStateEventAppend(events, ChangeState(s));
      state := s;
      events := events + [ChangeState(s)];
    }

    /** `switchState`: a no-op for the current state; `slideshow` starts the
        slide show, `idle` stops it, and `paused` or `singleImage` do nothing. */
    method SwitchState(s: GestureAppState)
      requires Valid()
      modifies this
      ensures Valid()
      ensures s == old(state) ==> NothingChanged()
      ensures s != old(state) && s == Slideshow ==> StartEffect()
      ensures s != old(state) && s == Idle ==> StopEffect()
      ensures s != old(state) && (s == Paused || s == SingleImage) ==> NothingChanged()
    {
      if s == GetState() {
        return;
      }
      if s == Slideshow {
        StartSlideShow();
      }
      if s == Idle {
        StopSlideShow();
      }
    }

    /** `setMediaFolder`: persists the folder, resets the current id to `""`
        (announcing it) and forgets every id handed out so far. */
    method SetMediaFolder(folder: string)
      requires Valid()
      modifies this
      ensures Valid()
      ensures settings == old(settings)[MediaFolderKey := folder]
      ensures GetMediaFolder() == folder
      ensures currentMediaId == Some("")
      ensures events == old(events) + [ChangeCurrentMediaId("")]
      ensures mediaIdsMap == map[] && mediaIdOrder == []
      ensures unchanged(`uuidCounter) && TimerUnchanged()
      ensures unchanged(`state, `currentSlideShowInterval)
    {
      settings := settings[MediaFolderKey := folder];
      SetCurrentMediaId("");
      IdTableEmpty(uuidCounter);
      mediaIdsMap := map[];
      mediaIdOrder := [];
    }

    /** `getMediaIdsList`: stores every image of the media folder under a fresh
        id, keeping the ids already handed out, and lists all ids in insertion order. */
    method GetMediaIdsList() returns (ids: seq<string>)
      requires Valid()
      modifies this
      ensures Valid()
      ensures ids == mediaIdOrder
      ensures ScanEffect() && TimerUnchanged()
      ensures unchanged(`state, `currentMediaId)
      ensures unchanged(`currentSlideShowInterval, `events)
    {
      var files := listImagesInFolder(GetMediaFolder() + "/");
      mediaIdsMap, mediaIdOrder, uuidCounter := InsertFresh(mediaIdsMap, mediaIdOrder, uuidCounter, files);
      ids := mediaIdOrder;
    }

    /** `setCurrentSlideShowInterval`: stores and announces the interval; a
        running timer keeps the delay it was created with. */
    method SetCurrentSlideShowInterval(interval: int)
      requires Valid()
      modifies this
      ensures Valid()
      ensures currentSlideShowInterval == interval
      ensures events == old(events) + [ChangeCurrentSlideShowInterval(interval)]
      ensures StoreUnchanged() && TimerUnchanged()
      ensures unchanged(`state, `currentMediaId)
    {
      LastStateEventAppend(events, ChangeCurrentSlideShowInterval(interval));
      currentSlideShowInterval := interval;
      events := events + [ChangeCurrentSlideShowInterval(interval)];
    }

    /** `setCurrentMediaId`: stores and announces the id, even when it is unchanged. */
    method SetCurrentMediaId(mediaId: string)
      requires Valid()
      modifies this
      ensures Valid()
      ensures currentMediaId == Some(mediaId)
      ensures events == old(events) + [ChangeCurrentMediaId(mediaId)]
      ensures StoreUnchanged() && TimerUnchanged()
      ensures unchanged(`state, `currentSlideShowInterval)
    {
      LastStateEventAppend(events, ChangeCurrentMediaId(mediaId));
      currentMediaId := Some(mediaId);
      events := events + [ChangeCurrentMediaId(mediaId)];
    }

    /** What the scan of `startSlideShow` does: every image of the media
        folder is registered under a fresh id. */
    twostate predicate ScanEffect()
      reads this
    {
      unchanged(`settings) &&
      uuidCounter == old(uuidCounter) + |old(ImagesOfMediaFolder())| &&
      mediaIdOrder == old(mediaIdOrder) + FreshIds(old(uuidCounter), |old(ImagesOfMediaFolder())|) &&
      mediaIdsMap == Register(old(mediaIdsMap), old(uuidCounter), old(ImagesOfMediaFolder()))
    }

    /** What playing a non-empty id list does: a shuffle of it becomes the
        playlist, its first id becomes current (announced before the state
        change), and one new timer is scheduled with the current interval. */
    twostate predicate PlayEffect(list: seq<string>)
      reads this
    {
      StoreUnchanged() && unchanged(`currentSlideShowInterval) &&
      |playlist| == |list| > 0 && multiset(playlist) == multiset(list) &&
      currentIndex == 0 && currentMediaId == Some(playlist[0]) && state == Slideshow &&
      events == old(events) + [ChangeCurrentMediaId(playlist[0])] +
                (if old(state) == Slideshow then [] else [ChangeState(Slideshow)]) &&
      slideShowInterval == Some(old(nextHandle)) && liveTimers == {old(nextHandle)} &&
      nextHandle == old(nextHandle) + 1 && tickDelay == currentSlideShowInterval
    }

    /** What `startSlideShow` does: the previous timer is cleared, the media
        folder is scanned, and then either nothing more happens (no ids at all)
        or the id list is played. */
    twostate predicate StartEffect()
      reads this
    {
      ScanEffect() && unchanged(`currentSlideShowInterval) &&
      liveTimers !! old(liveTimers) &&
      if mediaIdOrder == [] then
        unchanged(`state, `currentMediaId, `events) &&
        liveTimers == {} && unchanged(`slideShowInterval, `nextHandle) &&
        unchanged(`playlist, `currentIndex) && unchanged(`tickDelay)
      else
        |playlist| == |mediaIdOrder| && multiset(playlist) == multiset(mediaIdOrder) &&
        currentIndex == 0 && currentMediaId == Some(playlist[0]) && state == Slideshow &&
        events == old(events) + [ChangeCurrentMediaId(playlist[0])] +
                  (if old(state) == Slideshow then [] else [ChangeState(Slideshow)]) &&
        slideShowInterval == Some(old(nextHandle)) && liveTimers == {old(nextHandle)} &&
        nextHandle == old(nextHandle) + 1 && tickDelay == currentSlideShowInterval
    }

    /** `startSlideShow`. On an empty id list the old handle is cleared but
        not reset, so `slideShowInterval` still names a timer that no longer runs. */
    method StartSlideShow()
      requires Valid()
      modifies this
      ensures Valid()
      ensures StartEffect()
    {
      if slideShowInterval.Some? {
        liveTimers := liveTimers - {slideShowInterval.value};
      }
      assert liveTimers == {};
      var list := GetMediaIdsList();
      if |list| == 0 {
        return;
      }
      Play(list);
    }

    /** The part of `startSlideShow` after a non-empty scan: shuffle a copy
        of the list, make its first id current, enter `slideshow` and schedule
        the timer. */
    method Play(list: seq<string>)
      requires Valid() && |list| > 0 && liveTimers == {}
      modifies this
      ensures Valid()
      ensures PlayEffect(list)
    {
      var shuffled;
      ghost var swaps;
      shuffled, swaps := Helpers.Shuffled(list);
      var index := 0;
      Announce(shuffled[index]);
      Schedule(shuffled, index);
    }

    /** `setCurrentMediaId(id)` followed by `setState("slideshow")`. */
    method Announce(id: string)
      requires Valid()
      modifies this
      ensures Valid()
      ensures StoreUnchanged() && TimerUnchanged() && unchanged(`currentSlideShowInterval)
      ensures currentMediaId == Some(id) && state == Slideshow
      ensures events == old(events) + [ChangeCurrentMediaId(id)] +
                (if old(state) == Slideshow then [] else [ChangeState(Slideshow)])
    {
      SetCurrentMediaId(id);
      SetState(Slideshow);
    }

    /** `setInterval(callback, currentSlideShowInterval)`, the callback
        capturing `list` and starting at `index`. */
    method Schedule(list: seq<string>, index: nat)
      requires Valid() && index < |list| && liveTimers == {}
      modifies this
      ensures Valid()
      ensures StoreUnchanged() && unchanged(`currentSlideShowInterval)
      ensures unchanged(`state, `currentMediaId, `events)
      ensures playlist == list && currentIndex == index && tickDelay == currentSlideShowInterval
      ensures slideShowInterval == Some(old(nextHandle)) && liveTimers == old(liveTimers) + {old(nextHandle)}
      ensures nextHandle == old(nextHandle) + 1
    {
      playlist, currentIndex, tickDelay := list, index, currentSlideShowInterval;
      slideShowInterval := Some(nextHandle);
      liveTimers := liveTimers + {nextHandle};
      nextHandle := nextHandle + 1;
    }

    /** One firing of the live timer: advance cyclically through the playlist
        and make the id there current (announcing it). */
    method Tick()
      requires Valid() && liveTimers != {}
      modifies this
      ensures Valid()
      ensures unchanged(`playlist) && |playlist| > 0
      ensures currentIndex == (old(currentIndex) + 1) % |playlist| && currentIndex < |playlist|
      ensures currentMediaId == Some(playlist[currentIndex])
      ensures events == old(events) + [ChangeCurrentMediaId(playlist[currentIndex])]
      ensures unchanged(`slideShowInterval)
      ensures unchanged(`liveTimers, `nextHandle, `tickDelay)
      ensures StoreUnchanged() && unchanged(`state)
      ensures unchanged(`currentSlideShowInterval)
    {
      currentIndex := (currentIndex + 1) % |playlist|;
      var newMediaId := playlist[currentIndex];
      SetCurrentMediaId(newMediaId);
    }

    /** What `stopSlideShow` does: no timer is left, the handle is `null`, and
        the state becomes `idle` (announced only if it was not already). */
    twostate predicate StopEffect()
      reads this
    {
      StoreUnchanged() &&
      slideShowInterval == None && liveTimers == {} && state == Idle &&
      events == old(events) + (if old(state) == Idle then [] else [ChangeState(Idle)]) &&
      unchanged(`nextHandle, `playlist) &&
      unchanged(`currentIndex, `tickDelay) &&
      unchanged(`currentMediaId, `currentSlideShowInterval)
    }

    /** `stopSlideShow`. */
    method StopSlideShow()
      requires Valid()
      modifies this
      ensures Valid()
      ensures StopEffect()
    {
      if slideShowInterval.Some? {
        liveTimers := liveTimers - {slideShowInterval.value};
      }
      slideShowInterval := None;
      SetState(Idle);
    }
  }
}
