/** The site's service worker: a cache generation named after the published
    version, an app shell stored at install time, network-first handling of
    the critical scripts and stylesheet, cache-first handling of everything
    else, removal of older generations on activation, and the version
    messages it exchanges with the pages.

    Cache Storage is a map from cache names to caches (request URL to
    response) together with the order in which the caches were created; the
    network is a parameter of each handler. */
module ServiceWorker {
  import opened Wrappers
  import opened Strings
  import opened Sequences
  import opened JsValues

  /** Every cache generation is named `dinamus-lisboa-v<version>`. */
  const AppPrefix := "dinamus-lisboa-v"

  /** The generation used when the version document cannot be loaded. */
  const DefaultCacheName := "dinamus-lisboa-v1.0.1"

  const StylesPath := "/css/styles.css"
  const GlobalPath := "/js/global.js"
  const MainPath := "/js/main.js"
  const MobileMenuPath := "/js/mobile-menu.js"

  /** The paths whose app-shell entries get a `?v=<version>` query, in the
      order they are tested. */
  const VersionedPaths := [StylesPath, GlobalPath, MainPath, MobileMenuPath]

  /** The app shell stored at install time, before any version is applied. */
  const AppShell := [
    "/",
    "/index.html",
    "/css/styles.css",
    "/js/global.js",
    "/js/main.js",
    "/js/mobile-menu.js",
    "/img/dnms-logo.png",
    "/img/encontros/culto.jpg",
    "/img/encontros/grupos-conexao.jpg",
    "/img/encontros/sala-de-oracao.jpg",
    "/img/encontros/hangout.jpg",
    "https://fonts.googleapis.com/css2?family=Caprasimo&family=Poppins:wght@300;400;600&display=swap",
    "https://cdnjs.cloudflare.com/ajax/libs/font-awesome/6.5.1/css/all.min.css",
    "https://cdn.jsdelivr.net/npm/smoothscroll-polyfill@0.4.4/dist/smoothscroll.min.js"]

  /** The default generation is the one for version 1.0.1. */
  lemma DefaultIsVersion101()
    ensures DefaultCacheName == CacheNameFor(Str("1.0.1"))
  {
  }

  datatype Response = Response(status: int, body: string)

  /** What the network gives for one request: a response of any status, or a
      network error (a rejected `fetch`). */
  datatype NetResult = NetworkError | Received(response: Response)

  /** The outcome of fetching `/version.json` and parsing it: a failure (a
      network error or a body that is not a JSON object) or the document's
      `version` field, which may be missing or null. */
  datatype ConfigResult = ConfigFailed | Config(version: JsValue)

  /** The version pair a page receives, both in `CACHE_UPDATED` and as the
      reply to `GET_VERSION`. */
  datatype VersionInfo = VersionInfo(version: string, cacheName: string)

  /** A `CACHE_UPDATED` message posted to the client `client`. */
  datatype Posted = Posted(client: nat, info: VersionInfo)

  /** The data of a message a page sends: none (null or not an object) or an
      object with a `type`. */
  datatype PageMessage = NoData | Message(kind: string)

  /** `Response.ok`: a status in 200-299. */
  predicate Ok(r: Response) {
    200 <= r.status <= 299
  }

  /** The cache generation for a loaded version. */
  function CacheNameFor(version: JsValue): (name: string)
    ensures StartsWith(name, AppPrefix)
    ensures name[|AppPrefix|..] == Text(version)
  {
    AppPrefix + Text(version)
  }

  /** The position of the first path of `paths` that `url` contains. */
  function FirstPathIn(url: string, paths: seq<string>): (k: Option<nat>)
    ensures k.Some? ==> k.value < |paths| && Contains(url, paths[k.value])
    ensures k.Some? ==> forall j :: 0 <= j < k.value ==> !Contains(url, paths[j])
    ensures k.None? ==> forall j :: 0 <= j < |paths| ==> !Contains(url, paths[j])
  {
    if paths == [] then None
    else if Contains(url, paths[0]) then Some(0)
    else match FirstPathIn(url, paths[1..])
      case None => None
      case Some(k) => Some(k + 1)
  }

  /** One app-shell entry after a version is applied: an entry containing one
      of the versioned paths becomes that path with `?v=<version>` (the first
      path that matches wins), any other entry stays as it is. */
  function VersionedUrl(url: string, version: string): (r: string)
    ensures FirstPathIn(url, VersionedPaths).None? ==> r == url
    ensures FirstPathIn(url, VersionedPaths).Some? ==>
      r == VersionedPaths[FirstPathIn(url, VersionedPaths).value] + "?v=" + version
  {
    match FirstPathIn(url, VersionedPaths)
    case None => url
    case Some(k) => VersionedPaths[k] + "?v=" + version
  }

  /** The list mapping of `loadVersionConfig`. */
  function VersionedUrls(urls: seq<string>, version: string): (r: seq<string>)
    ensures |r| == |urls|
    ensures forall i :: 0 <= i < |urls| ==> r[i] == VersionedUrl(urls[i], version)
  {
    seq(|urls|, i requires 0 <= i < |urls| => VersionedUrl(urls[i], version))
  }

  /** A version written the usual way, with digits and dots only. */
  predicate PlainVersion(v: string) {
    forall i :: 0 <= i < |v| ==> v[i] == '.' || '0' <= v[i] <= '9'
  }

  /** A character outside a path, the query text `?v=` and the characters of
      a plain version is not in the versioned path. */
  lemma AbsentFromVersioned(path: string, version: string, c: char)
    requires PlainVersion(version) && c !in path
    requires c != '?' && c != 'v' && c != '=' && c != '.' && !('0' <= c <= '9')
    ensures c !in path + "?v=" + version
  {
    forall i | 0 <= i < |version|
      ensures version[i] != c
    {
    }
    assert c !in "?v=";
  }

  /** A versioned path with a plain version does not contain any path tested
      before it: each earlier path holds a letter the later one lacks. */
  lemma EarlierPathsAbsent(k: nat, version: string)
    requires 0 < k < |VersionedPaths| && PlainVersion(version)
    ensures forall j :: 0 <= j < k ==> !Contains(VersionedPaths[k] + "?v=" + version, VersionedPaths[j])
  {
    var path := VersionedPaths[k];
    var s := path + "?v=" + version;
    forall j | 0 <= j < k
      ensures !Contains(s, VersionedPaths[j])
    {
      if j == 0 {
        assert StylesPath[1] == 'c';
        AbsentFromVersioned(path, version, 'c');
        AbsentChar(s, StylesPath, 'c');
      } else if j == 1 {
        assert GlobalPath[4] == 'g';
        AbsentFromVersioned(path, version, 'g');
        AbsentChar(s, GlobalPath, 'g');
      } else {
        assert MainPath[5] == 'a';
        AbsentFromVersioned(path, version, 'a');
        AbsentChar(s, MainPath, 'a');
      }
    }
  }

  /** A versioned path with a plain version is recognised again as the same
      path. */
  lemma VersionedPathRecognised(k: nat, version: string)
    requires k < |VersionedPaths| && PlainVersion(version)
    ensures FirstPathIn(VersionedPaths[k] + "?v=" + version, VersionedPaths) == Some(k)
  {
    var s := VersionedPaths[k] + "?v=" + version;
    assert s == VersionedPaths[k] + ("?v=" + version);
    PrefixContained(VersionedPaths[k], "?v=" + version);
    if k > 0 {
      EarlierPathsAbsent(k, version);
    }
  }

  /** Applying a version to an entry that already carries a plain version
      only replaces the version; with the same version it changes nothing. */
  lemma VersionedUrlTwice(url: string, v1: string, v2: string)
    requires PlainVersion(v1)
    ensures VersionedUrl(VersionedUrl(url, v1), v2) == VersionedUrl(url, v2)
    ensures VersionedUrl(VersionedUrl(url, v1), v1) == VersionedUrl(url, v1)
  {
    match FirstPathIn(url, VersionedPaths)
    case None =>
    case Some(k) =>
      VersionedPathRecognised(k, v1);
  }

  /** The whole list: re-loading the configuration with another plain
      version gives the list for that version, and with the same version
      leaves the list as it is. */
  lemma VersionedUrlsTwice(urls: seq<string>, v1: string, v2: string)
    requires PlainVersion(v1)
    ensures VersionedUrls(VersionedUrls(urls, v1), v2) == VersionedUrls(urls, v2)
    ensures VersionedUrls(VersionedUrls(urls, v1), v1) == VersionedUrls(urls, v1)
  {
    forall i | 0 <= i < |urls|
      ensures VersionedUrl(VersionedUrl(urls[i], v1), v2) == VersionedUrl(urls[i], v2)
      ensures VersionedUrl(VersionedUrl(urls[i], v1), v1) == VersionedUrl(urls[i], v1)
    {
      VersionedUrlTwice(urls[i], v1, v2);
    }
  }

  /** A request is critical, and is served network-first, when its URL names
      the stylesheet or one of the three site scripts. */
  predicate IsCritical(url: string) {
    Contains(url, "styles.css") || Contains(url, "main.js") ||
    Contains(url, "global.js") || Contains(url, "mobile-menu.js")
  }

  /** Every versioned app-shell path is critical. */
  lemma VersionedPathsCritical(k: nat, version: string)
    requires k < |VersionedPaths|
    ensures IsCritical(VersionedPaths[k] + "?v=" + version)
  {
    var s := VersionedPaths[k] + "?v=" + version;
    var t := ["styles.css", "global.js", "main.js", "mobile-menu.js"][k];
    var i := [5, 4, 4, 4][k];
    assert s[i..i + |t|] == t;
    assert OccursAt(s, t, i);
    ContainsIsSubstring(s, t);
  }

  /** The position in creation order of the first cache that holds `url`. */
  function MatchIndex(order: seq<string>, caches: map<string, map<string, Response>>, url: string): (k: Option<nat>)
    ensures k.Some? ==> k.value < |order| && order[k.value] in caches && url in caches[order[k.value]]
    ensures k.Some? ==> forall j :: 0 <= j < k.value ==> !(order[j] in caches && url in caches[order[j]])
    ensures k.None? ==> forall j :: 0 <= j < |order| ==> !(order[j] in caches && url in caches[order[j]])
  {
    if order == [] then None
    else if order[0] in caches && url in caches[order[0]] then Some(0)
    else match MatchIndex(order[1..], caches, url)
      case None => None
      case Some(k) => Some(k + 1)
  }

  /** `caches.match(request)`: the response stored for `url` in the oldest
      cache that has one. */
  function CacheMatch(order: seq<string>, caches: map<string, map<string, Response>>, url: string): (r: Option<Response>)
    ensures r.None? <==> MatchIndex(order, caches, url).None?
    ensures r.Some? ==> r.value == caches[order[MatchIndex(order, caches, url).value]][url]
  {
    match MatchIndex(order, caches, url)
    case None => None
    case Some(k) => Some(caches[order[k]][url])
  }

  /** `cache.addAll(urls)`: every URL's response when all of them arrive
      with an ok status, otherwise nothing. */
  function FetchAll(urls: seq<string>, net: string -> NetResult): (r: Option<map<string, Response>>)
    ensures r.Some? <==> forall u :: u in urls ==> net(u).Received? && Ok(net(u).response)
    ensures r.Some? ==> r.value.Keys == set u | u in urls
    ensures r.Some? ==> forall u :: u in urls ==> r.value[u] == net(u).response
  {
    if urls == [] then Some(map[])
    else
      var u := urls[0];
      var rest := FetchAll(urls[1..], net);
      if net(u).Received? && Ok(net(u).response) && rest.Some? then
        assert forall x :: x in urls ==> x == u || x in urls[1..];
        Some(rest.value[u := net(u).response])
      else None
  }

  /** The cache names left by activation: exactly the current one, if it
      was there. */
  function KeepOnly(order: seq<string>, name: string): (r: seq<string>)
    ensures forall n :: n in r <==> n in order && n == name
    ensures IsSubsequence(r, order)
  {
    Filter(order, (n: string) => n == name)
  }

  /** One `CACHE_UPDATED` message per client, in client order. */
  function Announcements(clients: seq<nat>, name: string): (r: seq<Posted>)
    ensures |r| == |clients|
    ensures forall i :: 0 <= i < |clients| ==> r[i] == Posted(clients[i], VersionInfo(name, name))
  {
    seq(|clients|, i requires 0 <= i < |clients| => Posted(clients[i], VersionInfo(name, name)))
  }

  /** Once only one generation is left, a cache lookup answers from that
      generation alone. */
  lemma MatchSingleGeneration(order: seq<string>, caches: map<string, map<string, Response>>,
                              name: string, url: string)
    requires forall n :: n in order ==> n == name
    ensures CacheMatch(order, caches, url) ==
      if name in order && name in caches && url in caches[name] then Some(caches[name][url]) else None
  {
    match MatchIndex(order, caches, url)
    case Some(k) =>
      assert order[k] in order;
    case None =>
      if name in order {
        var j :| 0 <= j < |order| && order[j] == name;
      }
  }

  /** The contents of cache `name`, or an empty cache if there is none:
      what `caches.open(name)` gives. */
  function Opened(caches: map<string, map<string, Response>>, name: string): (c: map<string, Response>)
    ensures name in caches ==> c == caches[name]
    ensures name !in caches ==> c == map[]
  {
    if name in caches then caches[name] else map[]
  }

  /** The creation order after `caches.open(name)`: a new cache comes last. */
  function OrderAfterOpen(order: seq<string>, caches: map<string, map<string, Response>>, name: string)
    : (r: seq<string>)
    ensures name in caches ==> r == order
    ensures name !in caches ==> r == order + [name]
  {
    if name in caches then order else order + [name]
  }

  /** Cache Storage after the install step: generation `name` opened and, if
      `addAll` succeeded, filled with the fetched entries; every other cache
      and every entry the generation already had stays. */
  function Installed(caches: map<string, map<string, Response>>, name: string,
                     fetched: Option<map<string, Response>>): (r: map<string, map<string, Response>>)
    ensures r.Keys == caches.Keys + {name}
    ensures forall n :: n in caches && n != name ==> r[n] == caches[n]
    ensures fetched.None? ==> r[name] == Opened(caches, name)
    ensures fetched.Some? ==> r[name].Keys == Opened(caches, name).Keys + fetched.value.Keys
    ensures fetched.Some? ==> forall u :: u in fetched.value ==> r[name][u] == fetched.value[u]
    ensures fetched.Some? ==>
      forall u :: u in Opened(caches, name) && u !in fetched.value ==> r[name][u] == Opened(caches, name)[u]
  {
    caches[name := if fetched.Some? then Opened(caches, name) + fetched.value else Opened(caches, name)]
  }

  /** A cache that `addAll` filled holds each URL's response. */
  lemma ShellStored(c: map<string, Response>, urls: seq<string>, net: string -> NetResult)
    requires FetchAll(urls, net).Some?
    ensures var stored := c + FetchAll(urls, net).value;
      forall u :: u in urls ==> u in stored && stored[u] == net(u).response
  {
  }

  /** The worker's global state and Cache Storage. */
  class Worker {
    /** `CACHE_NAME`. */
    var cacheName: string
    /** `urlsToCache`. */
    var urlsToCache: seq<string>
    /** Cache names in creation order. */
    var cacheOrder: seq<string>
    var caches: map<string, map<string, Response>>
    /** Messages posted to pages, oldest first. */
    var outbox: seq<Posted>

    /** Cache Storage lists each cache once. */
    ghost predicate Valid()
      reads this
    {
      NoDuplicates(cacheOrder) && forall n :: n in cacheOrder <==> n in caches
    }

    /** A freshly started worker over the caches earlier generations left. */
    constructor (order: seq<string>, stored: map<string, map<string, Response>>)
      requires NoDuplicates(order) && forall n :: n in order <==> n in stored
      ensures Valid()
      ensures cacheName == DefaultCacheName && urlsToCache == AppShell
      ensures cacheOrder == order && caches == stored && outbox == []
    {
      cacheName := DefaultCacheName;
      urlsToCache := AppShell;
      cacheOrder := order;
      caches := stored;
      outbox := [];
    }

    /** `loadVersionConfig`: on success name the generation after the
        version and apply it to the URL list; on failure keep both. */
    method LoadVersionConfig(config: ConfigResult)
      modifies this`cacheName, this`urlsToCache
      ensures config.ConfigFailed? ==> cacheName == old(cacheName) && urlsToCache == old(urlsToCache)
      ensures config.Config? ==>
        cacheName == CacheNameFor(config.version) &&
        urlsToCache == VersionedUrls(old(urlsToCache), Text(config.version))
    {
      if config.Config? {
        cacheName := AppPrefix + Text(config.version);
        urlsToCache := VersionedUrls(urlsToCache, Text(config.version));
      }
    }

    /** `caches.open(name)`: the cache, created empty at the end of the
        creation order if it did not exist. */
    method OpenCache(name: string)
      requires Valid()
      modifies this`cacheOrder, this`caches
      ensures Valid()
      ensures name in caches
      ensures old(name in caches) ==> cacheOrder == old(cacheOrder) && caches == old(caches)
      ensures old(name !in caches) ==> cacheOrder == old(cacheOrder) + [name] && caches == old(caches)[name := map[]]
    {
      if name !in caches {
        cacheOrder := cacheOrder + [name];
        caches := caches[name := map[]];
      }
    }

    /** The `install` handler: load the configuration, open the current
        generation and store the whole app shell in it, or nothing of it if
        any entry fails. */
    method Install(config: ConfigResult, net: string -> NetResult)
      requires Valid()
      modifies this`cacheName, this`urlsToCache, this`cacheOrder, this`caches
      ensures Valid()
      ensures config.ConfigFailed? ==> cacheName == old(cacheName) && urlsToCache == old(urlsToCache)
      ensures config.Config? ==>
        cacheName == CacheNameFor(config.version) &&
        urlsToCache == VersionedUrls(old(urlsToCache), Text(config.version))
      ensures cacheOrder == OrderAfterOpen(old(cacheOrder), old(caches), cacheName)
      ensures caches == Installed(old(caches), cacheName, FetchAll(urlsToCache, net))
      ensures FetchAll(urlsToCache, net).Some? ==>
        forall u :: u in urlsToCache ==> u in caches[cacheName] && caches[cacheName][u] == net(u).response
    {
      LoadVersionConfig(config);
      CacheShell(net);
    }

    /** The install step after the configuration is loaded: open the current
        generation and `addAll` the URL list into it. */
    method CacheShell(net: string -> NetResult)
      requires Valid()
      modifies this`cacheOrder, this`caches
      ensures Valid()
      ensures cacheOrder == OrderAfterOpen(old(cacheOrder), old(caches), cacheName)
      ensures caches == Installed(old(caches), cacheName, FetchAll(urlsToCache, net))
      ensures FetchAll(urlsToCache, net).Some? ==>
        forall u :: u in urlsToCache ==> u in caches[cacheName] && caches[cacheName][u] == net(u).response
    {
      ghost var before := caches;
      ghost var gen := Opened(before, cacheName);
      OpenCache(cacheName);
      assert caches == before[cacheName := gen];
      var fetched := FetchAll(urlsToCache, net);
      if fetched.Some? {
        PutAll(fetched.value);
        assert caches == before[cacheName := gen + fetched.value];
        ShellStored(gen, urlsToCache, net);
      }
    }

    /** Store every entry of `entries` in the current generation. */
    method PutAll(entries: map<string, Response>)
      requires Valid() && cacheName in caches
      modifies this`caches
      ensures Valid()
      ensures caches == old(caches)[cacheName := old(caches)[cacheName] + entries]
    {
      caches := caches[cacheName := caches[cacheName] + entries];
    }

    /** The `fetch` handler. Critical requests go to the network first; a
        response is stored in the current generation and returned, a network
        error falls back to the caches. Other requests are served from the
        caches and go to the network only on a miss, without storing
        anything. `None` is a failed response. */
    method Fetch(url: string, net: NetResult) returns (r: Option<Response>)
      requires Valid()
      modifies this`cacheOrder, this`caches
      ensures Valid()
      ensures IsCritical(url) && net.Received? ==>
        r == Some(net.response) && cacheName in caches && url in caches[cacheName] && caches[cacheName][url] == net.response &&
        (forall n :: n in old(caches) && n != cacheName ==> n in caches && caches[n] == old(caches)[n]) &&
        (forall u :: u != url && cacheName in old(caches) && u in old(caches)[cacheName] ==> u in caches[cacheName] && caches[cacheName][u] == old(caches)[cacheName][u])
      ensures IsCritical(url) && net.Received? ==>
        cacheOrder == OrderAfterOpen(old(cacheOrder), old(caches), cacheName) &&
        caches == old(caches)[cacheName := Opened(old(caches), cacheName)[url := net.response]]
      ensures IsCritical(url) && net.NetworkError? ==>
        r == CacheMatch(cacheOrder, caches, url) && cacheOrder == old(cacheOrder) && caches == old(caches)
      ensures !IsCritical(url) ==> cacheOrder == old(cacheOrder) && caches == old(caches)
      ensures !IsCritical(url) ==>
        r == if CacheMatch(cacheOrder, caches, url).Some? then CacheMatch(cacheOrder, caches, url)
             else if net.Received? then Some(net.response) else None
    {
      if IsCritical(url) {
        match net
        case Received(response) =>
          OpenCache(cacheName);
          caches := caches[cacheName := caches[cacheName][url := response]];
          r := Some(response);
        case NetworkError =>
          r := CacheMatch(cacheOrder, caches, url);
      } else {
        var cached := CacheMatch(cacheOrder, caches, url);
        if cached.Some? {
          r := cached;
        } else if net.Received? {
          r := Some(net.response);
        } else {
          r := None;
        }
      }
    }

    /** The `activate` handler: delete every cache but the current
        generation, then tell every client the current version. */
    method Activate(clients: seq<nat>)
      requires Valid()
      modifies this`cacheOrder, this`caches, this`outbox
      ensures Valid()
      ensures cacheOrder == KeepOnly(old(cacheOrder), cacheName)
      ensures caches.Keys <= {cacheName}
      ensures cacheName in caches <==> cacheName in old(caches)
      ensures cacheName in caches ==> caches[cacheName] == old(caches)[cacheName]
      ensures outbox == old(outbox) + Announcements(clients, cacheName)
    {
      var name := cacheName;
      cacheOrder := KeepOnly(cacheOrder, name);
      caches := map n | n in caches && n == name :: caches[n];
      SubsequenceNoDuplicates(cacheOrder, old(cacheOrder));
      Announce(clients);
    }

    /** Post `CACHE_UPDATED` with the current version pair to each client,
        in order. */
    method Announce(clients: seq<nat>)
      modifies this`outbox
      ensures outbox == old(outbox) + Announcements(clients, cacheName)
    {
      var i := 0;
      while i < |clients|
        invariant 0 <= i <= |clients|
        invariant outbox == old(outbox) + Announcements(clients[..i], cacheName)
      {
        assert clients[..i + 1] == clients[..i] + [clients[i]];
        outbox := outbox + [Posted(clients[i], VersionInfo(cacheName, cacheName))];
        i := i + 1;
      }
      assert clients[..i] == clients;
    }

    /** The worker's `message` handler: `GET_VERSION` is answered with the
        current version pair; any other message gets no reply. */
    method OnMessage(data: PageMessage) returns (reply: Option<VersionInfo>)
      ensures reply.Some? <==> data.Message? && data.kind == "GET_VERSION"
      ensures reply.Some? ==> reply.value == VersionInfo(cacheName, cacheName)
    {
      if data.Message? && data.kind == "GET_VERSION" {
        reply := Some(VersionInfo(cacheName, cacheName));
      } else {
        reply := None;
      }
    }
  }
}
