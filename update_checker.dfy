/** The page-side update checker: it remembers the last adopted site version
    in localStorage, fetches the published version, and on a change shows an
    "updating" overlay, purges every cache it can reach and reloads the page.

    The browser is a `Window` object whose fields stand for localStorage,
    sessionStorage, the service-worker registrations, the Cache Storage names,
    the stylesheet/script/image elements of the document, the overlays added
    to the body and the reloads requested. The version fetch, `Date.now()` and
    the exceptions the purge may meet are parameters. */
module UpdateCheck {
  import opened Strings
  import opened Sequences
  import opened JsValues

  /** The localStorage key of the last adopted version. */
  const VersionKey := "dinamus_version"

  /** The outcome of fetching and parsing `version.json?t=<now>`: a failure (a
      network error, a non-ok status, a body that is not JSON, or the JSON
      `null`, whose `version` lookup throws) or the document's `version`
      field, which may be missing (as for any non-object body) or null. */
  datatype FetchResult = FetchFailed | Fetched(version: JsValue)

  /** The elements the resource refresh looks at: `link[rel="stylesheet"]`
      (its href), `script[src]`, `img` (their src), or any other element. */
  datatype ResourceKind = Stylesheet | Script | Image | OtherElement

  datatype Resource = Resource(kind: ResourceKind, url: string)

  /** Where, if anywhere, the purge meets an exception: while unregistering
      workers after `done` of them were unregistered, while deleting caches
      after `done` of them were deleted, in the localStorage step or in the
      sessionStorage step. */
  datatype Fault =
    | NoFault
    | DuringUnregister(done: nat)
    | DuringCacheDelete(done: nat)
    | DuringLocalStorage
    | DuringSessionStorage

  /** The stage of the purge at which the fault stops it; every stage before
      it completed. Stages: 1 workers, 2 caches, 3 localStorage,
      4 sessionStorage, 5 resource refresh. */
  function StopStage(f: Fault): (k: nat)
    ensures 1 <= k <= 6
    ensures k == 6 <==> f.NoFault?
  {
    match f
    case DuringUnregister(_) => 1
    case DuringCacheDelete(_) => 2
    case DuringLocalStorage => 3
    case DuringSessionStorage => 4
    case NoFault => 6
  }

  /** A snapshot of everything in the browser that the checker touches. */
  datatype BrowserState = BrowserState(
    localStorage: map<string, string>,
    sessionStorage: map<string, string>,
    registrations: seq<string>,
    cacheNames: seq<string>,
    resources: seq<Resource>,
    overlays: nat,
    reloads: nat)

  /** The update sequence starts when a version was stored and the fetched one
      differs from it. */
  predicate NeedsUpdate(current: JsValue, latest: JsValue) {
    Truthy(current) && current != latest
  }

  /** localStorage after the purge's clear-and-restore step: nothing but the
      version key, and that only if it held a non-empty value. */
  function KeepOnlyVersion(ls: map<string, string>): (r: map<string, string>)
    ensures r.Keys <= {VersionKey}
    ensures VersionKey in r ==> VersionKey in ls && r[VersionKey] == ls[VersionKey]
    ensures VersionKey in r <==> VersionKey in ls && ls[VersionKey] != ""
  {
    var version := GetItem(ls, VersionKey);
    if Truthy(version) then map[VersionKey := version.s] else map[]
  }

  /** `saveCurrentVersion` on the storage: store the latest version if it is
      truthy. */
  function SaveVersion(ls: map<string, string>, latest: JsValue): (r: map<string, string>)
    ensures Truthy(latest) ==> r == ls[VersionKey := latest.s]
    ensures !Truthy(latest) ==> r == ls
  {
    if Truthy(latest) then ls[VersionKey := latest.s] else ls
  }

  /** The elements the refresh rewrites: stylesheets whose href has `css/` or
      `styles.css`, scripts whose src has `js/` and not `cdn`, images whose
      src has `img/`. */
  predicate ShouldRefresh(r: Resource) {
    match r.kind
    case Stylesheet => Contains(r.url, "css/") || Contains(r.url, "styles.css")
    case Script => Contains(r.url, "js/") && !Contains(r.url, "cdn")
    case Image => Contains(r.url, "img/")
    case OtherElement => false
  }

  /** `${url.split('?')[0]}?v=${latest}&t=${now}`. */
  function CacheBusted(url: string, latest: JsValue, now: nat): (r: string)
    ensures BeforeQuery(url) <= r
  {
    BeforeQuery(url) + "?" + ("v=" + Text(latest) + "&t=" + Decimal(now))
  }

  /** A cache-busted URL keeps the part of the URL before its query. */
  lemma CacheBustedKeepsBase(url: string, latest: JsValue, now: nat)
    ensures BeforeQuery(CacheBusted(url, latest, now)) == BeforeQuery(url)
  {
    BeforeQueryOfJoin(BeforeQuery(url), "v=" + Text(latest) + "&t=" + Decimal(now));
  }

  /** Busting an already busted URL only replaces the query. */
  lemma CacheBustedTwice(url: string, v1: JsValue, t1: nat, v2: JsValue, t2: nat)
    ensures CacheBusted(CacheBusted(url, v1, t1), v2, t2) == CacheBusted(url, v2, t2)
  {
    CacheBustedKeepsBase(url, v1, t1);
  }

  /** One element after one pass of the refresh over the elements of `kind`. */
  function Refreshed(r: Resource, kind: ResourceKind, latest: JsValue, now: nat): Resource {
    if r.kind == kind && ShouldRefresh(r) then r.(url := CacheBusted(r.url, latest, now)) else r
  }

  /** One `forEach` pass of the refresh over the elements of `kind`. */
  function RefreshPass(rs: seq<Resource>, kind: ResourceKind, latest: JsValue, now: nat): (out: seq<Resource>)
    ensures |out| == |rs|
    ensures forall i :: 0 <= i < |rs| ==> out[i] == Refreshed(rs[i], kind, latest, now)
  {
    seq(|rs|, i requires 0 <= i < |rs| => Refreshed(rs[i], kind, latest, now))
  }

  /** The whole refresh: every eligible element gets a cache-busted URL, every
      other element is untouched, and no element changes kind. */
  function RefreshAll(rs: seq<Resource>, latest: JsValue, now: nat): (out: seq<Resource>)
    ensures |out| == |rs|
    ensures forall i :: 0 <= i < |rs| ==> out[i].kind == rs[i].kind
    ensures forall i :: 0 <= i < |rs| ==>
      out[i].url == if ShouldRefresh(rs[i]) then CacheBusted(rs[i].url, latest, now) else rs[i].url
  {
    RefreshPass(RefreshPass(RefreshPass(rs, Stylesheet, latest, now), Script, latest, now), Image, latest, now)
  }

  /** Refreshing twice leaves every refreshed element with the same base URL
      as refreshing once. */
  lemma RefreshTwiceSameBase(rs: seq<Resource>, v1: JsValue, t1: nat, v2: JsValue, t2: nat, i: nat)
    requires i < |rs| && ShouldRefresh(rs[i]) && ShouldRefresh(RefreshAll(rs, v1, t1)[i])
    ensures RefreshAll(RefreshAll(rs, v1, t1), v2, t2)[i] == RefreshAll(rs, v2, t2)[i]
  {
    CacheBustedTwice(rs[i].url, v1, t1, v2, t2);
  }

  /** The purge (`clearAllCaches`) on a browser snapshot: every stage before
      the fault completes, the faulting stage stops part-way, and none after
      it runs. */
  function Purge(st: BrowserState, fault: Fault, latest: JsValue, now: nat): (out: BrowserState)
    ensures out.overlays == st.overlays && out.reloads == st.reloads
    ensures fault.NoFault? ==>
              out.registrations == [] && out.cacheNames == [] &&
              out.localStorage == KeepOnlyVersion(st.localStorage) && out.sessionStorage == map[] &&
              out.resources == RefreshAll(st.resources, latest, now)
    ensures fault.DuringUnregister? ==>
              out.registrations == st.registrations[Min(fault.done, |st.registrations|)..]
    ensures StopStage(fault) > 1 ==> out.registrations == []
    ensures StopStage(fault) < 2 ==> out.cacheNames == st.cacheNames
    ensures fault.DuringCacheDelete? ==>
              out.cacheNames == st.cacheNames[Min(fault.done, |st.cacheNames|)..]
    ensures StopStage(fault) > 2 ==> out.cacheNames == []
    ensures StopStage(fault) <= 3 ==> out.localStorage == st.localStorage
    ensures StopStage(fault) > 3 ==> out.localStorage == KeepOnlyVersion(st.localStorage)
    ensures StopStage(fault) <= 4 ==> out.sessionStorage == st.sessionStorage
    ensures StopStage(fault) > 4 ==> out.sessionStorage == map[]
    ensures !fault.NoFault? ==> out.resources == st.resources
  {
    var regs := st.registrations;
    var names := st.cacheNames;
    st.(
      registrations := if fault.DuringUnregister? then regs[Min(fault.done, |regs|)..] else [],
      cacheNames :=
        if StopStage(fault) < 2 then names
        else if fault.DuringCacheDelete? then names[Min(fault.done, |names|)..]
        else [],
      localStorage := if StopStage(fault) > 3 then KeepOnlyVersion(st.localStorage) else st.localStorage,
      sessionStorage := if StopStage(fault) > 4 then map[] else st.sessionStorage,
      resources := if fault.NoFault? then RefreshAll(st.resources, latest, now) else st.resources)
  }

  function Min(a: nat, b: nat): nat {
    if a < b then a else b
  }

  /** `startUpdate` on a browser snapshot: purge, save the latest version,
      reload once. */
  function UpdateSequence(st: BrowserState, fault: Fault, latest: JsValue, now: nat): (out: BrowserState)
    ensures out.reloads == st.reloads + 1 && out.overlays == st.overlays
    ensures Truthy(latest) ==> VersionKey in out.localStorage && out.localStorage[VersionKey] == latest.s
    ensures fault.NoFault? && Truthy(latest) ==> out.localStorage == map[VersionKey := latest.s]
    ensures fault.NoFault? ==> out.registrations == [] && out.cacheNames == [] && out.sessionStorage == map[]
  {
    var purged := Purge(st, fault, latest, now);
    purged.(localStorage := SaveVersion(purged.localStorage, latest), reloads := purged.reloads + 1)
  }

  /** `UpdateSequence` as its three steps. */
  lemma UpdateSequenceSteps(st: BrowserState, purged: BrowserState, saved: BrowserState, out: BrowserState,
                            fault: Fault, latest: JsValue, now: nat)
    requires purged == Purge(st, fault, latest, now)
    requires saved == purged.(localStorage := SaveVersion(purged.localStorage, latest))
    requires out == saved.(reloads := saved.reloads + 1)
    ensures out == UpdateSequence(st, fault, latest, now)
  {
  }

  /** Scenario: version 1.0.0 stored, 1.0.1 published. The update runs, every
      cache and registration is gone, the new version is stored and the page
      reloads once. */
  lemma ScenarioNewVersion(st: BrowserState, now: nat)
    requires VersionKey in st.localStorage && st.localStorage[VersionKey] == "1.0.0"
    ensures var current := GetItem(st.localStorage, VersionKey);
      var out := UpdateSequence(st.(overlays := st.overlays + 1), NoFault, Str("1.0.1"), now);
      && NeedsUpdate(current, Str("1.0.1"))
      && out.registrations == [] && out.cacheNames == []
      && out.localStorage == map[VersionKey := "1.0.1"]
      && out.reloads == st.reloads + 1 && out.overlays == st.overlays + 1
  {
  }

  /** After an update to a non-empty version the next page load reads that
      version back and, if the same version is still published, does not
      update again, whatever the purge met. */
  lemma UpdateSettles(st: BrowserState, fault: Fault, latest: JsValue, now: nat)
    requires Truthy(latest)
    ensures var out := UpdateSequence(st, fault, latest, now);
      GetItem(out.localStorage, VersionKey) == latest &&
      !NeedsUpdate(GetItem(out.localStorage, VersionKey), latest)
  {
  }

  /** A version document without a usable `version` field while a version is
      stored: the update starts, nothing new is saved, the stored version
      survives the purge, so the next load starts the update again. */
  lemma MissingVersionRepeatsUpdate(st: BrowserState, now: nat)
    requires VersionKey in st.localStorage && st.localStorage[VersionKey] != ""
    ensures var stored := GetItem(st.localStorage, VersionKey);
      var out := UpdateSequence(st, NoFault, Undefined, now);
      && NeedsUpdate(stored, Undefined)
      && out.localStorage == map[VersionKey := stored.s]
      && GetItem(out.localStorage, VersionKey) == stored
      && out.reloads == st.reloads + 1
  {
  }

  /** A message from the service worker: no data, or data with a `type`. */
  datatype WorkerMessage = NoData | Message(kind: string, version: JsValue)

  /** The browser objects the checker works on. */
  class Window {
    var localStorage: map<string, string>
    var sessionStorage: map<string, string>
    /** Scopes of the registered service workers, in `getRegistrations` order. */
    var registrations: seq<string>
    /** `caches.keys()`. */
    var cacheNames: seq<string>
    /** The document's link/script/img elements, in document order. */
    var resources: seq<Resource>
    /** Update overlays appended to the body. */
    var overlays: nat
    /** `location.reload()` calls. */
    var reloads: nat

    constructor (ls: map<string, string>, ss: map<string, string>, regs: seq<string>,
                 names: seq<string>, rs: seq<Resource>)
      ensures State() == BrowserState(ls, ss, regs, names, rs, 0, 0)
    {
      localStorage, sessionStorage := ls, ss;
      registrations, cacheNames, resources := regs, names, rs;
      overlays, reloads := 0, 0;
    }

    function State(): BrowserState
      reads this
    {
      BrowserState(localStorage, sessionStorage, registrations, cacheNames, resources, overlays, reloads)
    }
  }

  /** The class `UpdateChecker`. The constructor's call to `init` is the
      separate step `Init`, since `init` awaits a fetch. */
  class UpdateChecker {
    var currentVersion: JsValue
    var latestVersion: JsValue
    /** Set when the update sequence starts; nothing ever reads it. */
    var isUpdating: bool
    const window: Window

    constructor (w: Window)
      ensures window == w
      ensures currentVersion == Null && latestVersion == Null && !isUpdating
    {
      window := w;
      currentVersion := Null;
      latestVersion := Null;
      isUpdating := false;
    }

    /** `init`: read the stored version, check for updates, and on a first
        run store the latest version. */
    method Init(fetched: FetchResult, fault: Fault, now: nat)
      modifies this, window
      ensures var stored := GetItem(old(window.localStorage), VersionKey);
        var latest := if fetched.Fetched? then fetched.version else old(latestVersion);
        && latestVersion == latest
        && (fetched.Fetched? && NeedsUpdate(stored, latest) ==>
              window.State() == UpdateSequence(old(window.State()).(overlays := old(window.overlays) + 1),
                                               fault, latest, now)
              && isUpdating && currentVersion == (if Truthy(latest) then latest else stored))
        && (!Truthy(stored) ==>
              window.State() == old(window.State()).(localStorage := SaveVersion(old(window.localStorage), latest))
              && isUpdating == old(isUpdating)
              && currentVersion == (if Truthy(latest) then latest else stored))
        && (Truthy(stored) && (fetched.FetchFailed? || stored == latest) ==>
              window.State() == old(window.State()) && currentVersion == stored
              && isUpdating == old(isUpdating))
    {
      currentVersion := GetItem(window.localStorage, VersionKey);
      CheckForUpdates(fetched, fault, now);
      if !Truthy(currentVersion) {
        SaveCurrentVersion();
      }
    }

    /** `checkForUpdates`: a failed fetch changes nothing and raises nothing;
        a successful one records the latest version and starts the update
        sequence exactly when a stored version differs from it. */
    method CheckForUpdates(fetched: FetchResult, fault: Fault, now: nat)
      modifies this, window
      ensures fetched.FetchFailed? ==>
        window.State() == old(window.State()) && latestVersion == old(latestVersion) &&
        currentVersion == old(currentVersion) && isUpdating == old(isUpdating)
      ensures fetched.Fetched? ==> latestVersion == fetched.version
      ensures fetched.Fetched? && NeedsUpdate(old(currentVersion), fetched.version) ==>
        window.State() == UpdateSequence(old(window.State()).(overlays := old(window.overlays) + 1),
                                         fault, fetched.version, now) &&
        isUpdating &&
        currentVersion == (if Truthy(fetched.version) then fetched.version else old(currentVersion))
      ensures fetched.Fetched? && !NeedsUpdate(old(currentVersion), fetched.version) ==>
        window.State() == old(window.State()) &&
        currentVersion == old(currentVersion) && isUpdating == old(isUpdating)
    {
      match fetched
      case FetchFailed =>
      case Fetched(version) =>
        latestVersion := version;
        if Truthy(currentVersion) && currentVersion != latestVersion {
          ShowUpdateModal(fault, now);
        }
    }

    /** `showUpdateModal`: add the overlay and start the update. */
    method ShowUpdateModal(fault: Fault, now: nat)
      modifies this, window
      ensures latestVersion == old(latestVersion) && isUpdating
      ensures window.State() == UpdateSequence(old(window.State()).(overlays := old(window.overlays) + 1),
                                               fault, latestVersion, now)
      ensures currentVersion == if Truthy(latestVersion) then latestVersion else old(currentVersion)
    {
      window.overlays := window.overlays + 1;
      StartUpdate(fault, now);
    }

    /** `startUpdate`: purge, save the version and reload exactly once,
        whatever the purge met. */
    method StartUpdate(fault: Fault, now: nat)
      modifies this, window
      ensures latestVersion == old(latestVersion) && isUpdating
      ensures window.State() == UpdateSequence(old(window.State()), fault, latestVersion, now)
      ensures currentVersion == if Truthy(latestVersion) then latestVersion else old(currentVersion)
    {
      isUpdating := true;
      ClearAllCaches(fault, now);
      ghost var purged := window.State();
      SaveCurrentVersion();
      ghost var saved := window.State();
      window.reloads := window.reloads + 1;
      UpdateSequenceSteps(old(window.State()), purged, saved, window.State(), fault, latestVersion, now);
    }

    /** `clearAllCaches`: unregister every worker, delete every cache, keep
        only the version in localStorage, empty sessionStorage and refresh
        the resource URLs; an exception ends the purge and is swallowed. */
    method ClearAllCaches(fault: Fault, now: nat)
      modifies window
      ensures window.State() == Purge(old(window.State()), fault, latestVersion, now)
    {
      var regs := window.registrations;
      var i := 0;
      while i < |regs|
        invariant 0 <= i <= |regs|
        invariant window.registrations == regs[i..]
        invariant fault.DuringUnregister? ==> i <= fault.done
        invariant window.State() == old(window.State()).(registrations := regs[i..])
      {
        if fault == DuringUnregister(i) {
          return;
        }
        window.registrations := window.registrations[1..];
        i := i + 1;
      }
      if fault.DuringUnregister? {
        return;
      }

      var names := window.cacheNames;
      var j := 0;
      while j < |names|
        invariant 0 <= j <= |names|
        invariant fault.DuringCacheDelete? ==> j <= fault.done
        invariant window.State() == old(window.State()).(registrations := [], cacheNames := names[j..])
      {
        if fault == DuringCacheDelete(j) {
          return;
        }
        window.cacheNames := window.cacheNames[1..];
        j := j + 1;
      }
      if fault.DuringCacheDelete? {
        return;
      }

      if fault == DuringLocalStorage {
        return;
      }
      var version := GetItem(window.localStorage, VersionKey);
      window.localStorage := map[];
      if Truthy(version) {
        window.localStorage := window.localStorage[VersionKey := version.s];
      }

      if fault == DuringSessionStorage {
        return;
      }
      window.sessionStorage := map[];

      ForceResourceReload(now);
    }

    /** `forceResourceReload`: one pass each over stylesheets, scripts and
        images, rewriting the URL of every eligible element. */
    method ForceResourceReload(now: nat)
      modifies window`resources
      ensures window.resources == RefreshAll(old(window.resources), latestVersion, now)
    {
      RefreshKind(Stylesheet, now);
      RefreshKind(Script, now);
      RefreshKind(Image, now);
    }

    /** One `forEach` pass of `forceResourceReload`. */
    method RefreshKind(kind: ResourceKind, now: nat)
      modifies window`resources
      ensures window.resources == RefreshPass(old(window.resources), kind, latestVersion, now)
    {
      var rs := window.resources;
      var i := 0;
      while i < |rs|
        invariant 0 <= i <= |rs|
        invariant |window.resources| == |rs|
        invariant forall k :: 0 <= k < i ==> window.resources[k] == Refreshed(rs[k], kind, latestVersion, now)
        invariant forall k :: i <= k < |rs| ==> window.resources[k] == rs[k]
      {
        var r := window.resources[i];
        if r.kind == kind && ShouldRefresh(r) {
          window.resources := window.resources[i := r.(url := CacheBusted(r.url, latestVersion, now))];
        }
        i := i + 1;
      }
    }

    /** `saveCurrentVersion`: adopt the latest version if it is truthy,
        otherwise change nothing. */
    method SaveCurrentVersion()
      modifies this`currentVersion, window`localStorage
      ensures window.localStorage == SaveVersion(old(window.localStorage), latestVersion)
      ensures currentVersion == if Truthy(latestVersion) then latestVersion else old(currentVersion)
    {
      if Truthy(latestVersion) {
        window.localStorage := window.localStorage[VersionKey := latestVersion.s];
        currentVersion := latestVersion;
      }
    }

    /** `manualCheck`: the same as `checkForUpdates`. */
    method ManualCheck(fetched: FetchResult, fault: Fault, now: nat)
      modifies this, window
      ensures fetched.FetchFailed? ==>
        window.State() == old(window.State()) && latestVersion == old(latestVersion) &&
        currentVersion == old(currentVersion) && isUpdating == old(isUpdating)
      ensures fetched.Fetched? ==> latestVersion == fetched.version
      ensures fetched.Fetched? && NeedsUpdate(old(currentVersion), fetched.version) ==>
        window.State() == UpdateSequence(old(window.State()).(overlays := old(window.overlays) + 1),
                                         fault, fetched.version, now) &&
        isUpdating &&
        currentVersion == (if Truthy(fetched.version) then fetched.version else old(currentVersion))
      ensures fetched.Fetched? && !NeedsUpdate(old(currentVersion), fetched.version) ==>
        window.State() == old(window.State()) &&
        currentVersion == old(currentVersion) && isUpdating == old(isUpdating)
    {
      CheckForUpdates(fetched, fault, now);
    }
  }

  /** The page's service-worker `message` listener: a `CACHE_UPDATED`
      message runs `checkForUpdates`; any other message changes nothing. */
  method OnWorkerMessage(checker: UpdateChecker, data: WorkerMessage,
                         fetched: FetchResult, fault: Fault, now: nat)
    modifies checker, checker.window
    ensures !(data.Message? && data.kind == "CACHE_UPDATED" && fetched.Fetched?) ==>
      checker.window.State() == old(checker.window.State()) &&
      checker.latestVersion == old(checker.latestVersion) &&
      checker.currentVersion == old(checker.currentVersion) &&
      checker.isUpdating == old(checker.isUpdating)
    ensures data.Message? && data.kind == "CACHE_UPDATED" && fetched.Fetched? ==>
      checker.latestVersion == fetched.version &&
      (NeedsUpdate(old(checker.currentVersion), fetched.version) <==>
         checker.window.reloads == old(checker.window.reloads) + 1)
    ensures data.Message? && data.kind == "CACHE_UPDATED" && fetched.Fetched? &&
            NeedsUpdate(old(checker.currentVersion), fetched.version) ==>
      checker.window.State() ==
        UpdateSequence(old(checker.window.State()).(overlays := old(checker.window.overlays) + 1),
                       fault, fetched.version, now) &&
      checker.isUpdating &&
      checker.currentVersion ==
        (if Truthy(fetched.version) then fetched.version else old(checker.currentVersion))
    ensures data.Message? && data.kind == "CACHE_UPDATED" && fetched.Fetched? &&
            !NeedsUpdate(old(checker.currentVersion), fetched.version) ==>
      checker.window.State() == old(checker.window.State()) &&
      checker.currentVersion == old(checker.currentVersion) &&
      checker.isUpdating == old(checker.isUpdating)
  {
    if data.Message? && data.kind == "CACHE_UPDATED" {
      checker.CheckForUpdates(fetched, fault, now);
    }
  }
}
