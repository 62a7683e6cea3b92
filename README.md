# Dinamus Lisboa site scripts — a verified model

This project models the client-side logic of the Dinamus Lisboa church web
site in Dafny and proves properties of it. It covers six parts:

- **Groups directory** (`groups.dfy`, module `Groups`). This is the
  connection-group page. It derives one filter button per distinct region,
  filters by region, runs a case-insensitive search over five text fields
  combined with the region, and clears all filters. The page's module
  variables, the search box and the dynamic buttons are the fields of the
  class `Directory`.
- **Update checker** (`update_checker.dfy`, module `UpdateCheck`). This is
  the class `UpdateChecker`. It compares the version stored in
  localStorage with the published one and handles the first-run,
  up-to-date and update cases. An update runs a staged purge (workers,
  caches, localStorage except the version, sessionStorage, then a
  cache-busting rewrite of resource URLs), saves the version and reloads.
  The browser is the class `Window`, and each purge outcome is also given
  as a function on a snapshot (`Purge`, `UpdateSequence`).
- **Service worker** (`service_worker.dfy`, module `ServiceWorker`). It
  names cache generations `dinamus-lisboa-v<version>` and versions the app
  shell's URLs. It serves critical requests network-first and the rest
  cache-first. Activation deletes every older generation and announces the
  version, and the worker answers `GET_VERSION`.
- **Conference modal** (`conference_modal.dfy`). This covers the guarded
  open/close, the Escape and wheel guards, the show buttons, the auto-show
  timer and the one-shot scroll trigger.
- **Home page** (`home_page.dfy`). This covers the image cards (at most
  one active), the scroll-section choice, and the highlighting of menu
  links.
- **Mobile menu** (`mobile_menu.dfy`). This covers the toggle, close,
  Escape, backdrop and link routing. It also covers the shared anchor
  handler that clears the menu's classes without resetting its flag.

Shared modules:

- `strings.dfy` holds the JavaScript string operations: `includes`,
  `startsWith`, `trim`, ASCII `toLowerCase`, `split('?')[0]` and decimal
  printing.
- `sequences.dfy` holds `filter`, `[...new Set(xs)]` and subsequences.
- `js_values.dfy` holds `null`/`undefined`/string values and truthiness.
- `wrappers.dfy` holds `Option`.

Timers, fetches, `Date.now()`, the network and exceptions are explicit
inputs or separate steps. Each event handler runs atomically.

Where the code and the written design disagree, the model follows the code:

- **`isUpdating` is not a guard.** `isUpdating` is set but never read.
  Nothing stops a second update sequence (js/update-checker.js:10, 79).
- **The purge keeps the old version.** It preserves the version that was
  stored before the purge, not the new one. The new one is written
  afterwards by `saveCurrentVersion`, and only if it is non-empty
  (js/update-checker.js:140-147, 207-213).

Behaviour of the code as written that the proofs bring out:

- **A missing `version` field reloads on every load**
  (`MissingVersionRepeatsUpdate`). If the version document has no usable
  `version` field while a version is stored, every load runs the update
  and reloads, and the stored version never changes.
- **A quick re-open ends up hidden** (`ReopenWithinCloseDelay`). The
  modal's 700 ms close timer still hides a modal re-opened within that
  time.
- **The menu flag can fall out of sync** (`DesyncAfterGlobalAnchorClick`).
  The shared anchor handler clears the menu's classes but keeps its flag.
  The next button click then shows the menu while the script counts it
  closed.

## Model

| member | source | states |
|---|---|---|
| Strings.ContainsIsSubstring | js/grupos-conexao.js:144-148 | `includes` holds exactly when the term occurs at some position of the string |
| Strings.AbsentChar | sw.js:31-41 | a string holding a character that another string lacks does not occur in it |
| Strings.ToLower | js/grupos-conexao.js:135 | lower-casing keeps the length and maps each character by ASCII `toLowerCase` |
| Strings.ToLowerIdempotent | js/grupos-conexao.js:135 | lower-casing a lower-cased term changes nothing |
| Strings.TrimStart | js/grupos-conexao.js:125 | removes exactly a leading run of ECMAScript white space and returns the rest of the input |
| Strings.TrimEnd | js/grupos-conexao.js:125 | removes exactly a trailing run of ECMAScript white space and returns the rest of the input |
| Strings.TrimEmpty | js/grupos-conexao.js:125-126 | a trimmed term is empty exactly when the input is all white space |
| Strings.TrimShape | js/grupos-conexao.js:264 | a trimmed value has no white space at either end and is a contiguous piece of the input |
| Strings.BeforeQuery | js/update-checker.js:171 | `split('?')[0]` is a prefix without `?`, ended by the first `?` of the input |
| Strings.BeforeQueryOfJoin | js/update-checker.js:171-172 | whatever follows a `?` does not change the part before it |
| Strings.Decimal | js/update-checker.js:172 | the printed timestamp is a non-empty run of digits that spells the number, with a leading `0` only for zero |
| Sequences.Filter | js/grupos-conexao.js:121 | `filter` keeps exactly the accepted elements, each as often as in the input, as an order-preserving subsequence |
| Sequences.FilterConjunction | js/grupos-conexao.js:137-149 | filtering by a conjunction is filtering twice |
| Sequences.SubsequenceTransitive | js/grupos-conexao.js:137 | a subsequence of a subsequence is a subsequence |
| Sequences.SubsequenceNoDuplicates | sw.js:110-119 | a subsequence of a duplicate-free list is duplicate-free |
| Sequences.Distinct | js/grupos-conexao.js:73 | `[...new Set(xs)]` holds exactly the elements of `xs`, each once |
| Sequences.DistinctInFirstOccurrenceOrder | js/grupos-conexao.js:73 | the distinct elements come in the order of their first occurrence |
| Sequences.DistinctOfDistinct | js/grupos-conexao.js:73 | a duplicate-free list is its own set of distinct elements |
| JsValues.Text | js/update-checker.js:172 | a template literal prints a string as itself, and the words `null`/`undefined` come only from those values or from that very string |
| JsValues.GetItem | js/update-checker.js:17 | `getItem` gives the stored string for a present key and `null` for an absent one |
| Groups.Regions | js/grupos-conexao.js:73 | the region list has one entry per group, in group order |
| Groups.RegionName | js/grupos-conexao.js:92-99 | the three known keys get their fixed names, and any other key (including the empty one) is returned unchanged |
| Groups.ButtonsFor | js/grupos-conexao.js:76-88 | one button per region, in order, with that region's display name |
| Groups.FilterButtonsUnique | js/grupos-conexao.js:73-81 | no two buttons share a region, and each is captioned with its region's name |
| Groups.FilterButtonsCoverRegions | js/grupos-conexao.js:73-88 | `FilterButtons`, the buttons built from the groups' distinct regions, has a button for every group's region and no button for a region no group has |
| Groups.FilterButtonsInFirstOccurrenceOrder | js/grupos-conexao.js:73-88 | buttons come in the order in which their regions first occur |
| Groups.StaticFilterButtons | js/grupos-conexao.js:7-43 | the static data yields exactly the buttons Lisboa, Sintra |
| Groups.RegionFilter | js/grupos-conexao.js:118-122 | "all" gives the whole list itself; any other region gives exactly its groups, each as often as in the list, as an ordered subsequence |
| Groups.InRegion | js/grupos-conexao.js:121 | the groups of one region, each as often as in the list, as an ordered subsequence |
| Groups.RegionFilterIsScopeFilter | js/grupos-conexao.js:118-139 | the region filter and the search's region test select the same list |
| Groups.Search | js/grupos-conexao.js:134-149 | a group is kept iff it is in the region's scope and the lower-cased term occurs in one of its five lower-cased fields; the result keeps each such group as often as the list has it, as an ordered subsequence |
| Groups.SearchNarrowsRegionFilter | js/grupos-conexao.js:137-141 | the search result is a subsequence of the region filter's list |
| Groups.SearchEmptyTerm | js/grupos-conexao.js:263-270 | an empty term selects the plain region filter |
| Groups.SearchIgnoresCase | js/grupos-conexao.js:135-148 | `Search`, which keeps the in-scope groups satisfying `Matches` (the lower-cased term occurs in one of the five lower-cased fields), gives the same result for a term and for its lower-cased form |
| Groups.Directory.constructor | js/grupos-conexao.js:2-4 | empty lists, filter "all", empty search box, no buttons, and the "all" button highlighted iff the markup marks it |
| Groups.Directory.Load | js/grupos-conexao.js:46-61 | the directory and the shown list are the static groups in order, and the buttons are those for its regions |
| Groups.Directory.CreateFilters | js/grupos-conexao.js:64-89 | the old dynamic buttons are replaced by one per distinct region |
| Groups.Directory.ApplyFilter | js/grupos-conexao.js:102-131 | sets the filter, highlights that region's button alone (none if absent), and shows the region filter or, with a non-empty trimmed search term, that search |
| Groups.Directory.ApplySearch | js/grupos-conexao.js:134-152 | the shown list is recomputed from the whole directory for the current region and term |
| Groups.Directory.ClearFilters | js/grupos-conexao.js:203-223 | filter "all", whole list, empty search box, "all" highlighted; the directory is unchanged |
| Groups.Directory.OnSearchInput | js/grupos-conexao.js:261-272 | a non-empty trimmed value searches and an empty one re-applies the current region filter |
| UpdateCheck.StopStage | js/update-checker.js:101-161 | the stage a fault stops the purge at lies between workers and sessionStorage, and only a purge without fault gets past every stage |
| UpdateCheck.KeepOnlyVersion | js/update-checker.js:140-147 | after the clear, localStorage holds at most the version key, with its earlier value, kept exactly when that value was non-empty |
| UpdateCheck.SaveVersion | js/update-checker.js:207-213 | a truthy latest version is stored under the version key, and otherwise storage is unchanged |
| UpdateCheck.CacheBusted | js/update-checker.js:171-172 | the rewritten URL starts with the URL's part before `?` |
| UpdateCheck.CacheBustedKeepsBase | js/update-checker.js:171-172 | the rewritten URL has the same part before `?` as the original |
| UpdateCheck.CacheBustedTwice | js/update-checker.js:169-201 | rewriting a rewritten URL equals rewriting the original once |
| UpdateCheck.RefreshPass | js/update-checker.js:169-176 | one pass rewrites exactly the eligible elements of its kind, position by position |
| UpdateCheck.RefreshAll | js/update-checker.js:163-205 | the elements `ShouldRefresh` admits (stylesheets whose URL contains `css/` or `styles.css`, scripts whose URL contains `js/` but not `cdn`, images whose URL contains `img/`) get cache-busted URLs, every other element is untouched, and no element changes kind |
| UpdateCheck.RefreshTwiceSameBase | js/update-checker.js:169-201 | an element refreshed twice ends as if refreshed once with the later version and time |
| UpdateCheck.Purge | js/update-checker.js:101-161 | every stage before the fault completes (no registrations, no caches, localStorage down to the version, empty sessionStorage), the faulting loop leaves the entries after its first `done`, every later stage is undone, and only a purge without fault refreshes the resources |
| UpdateCheck.UpdateSequence | js/update-checker.js:78-99 | one reload whatever the fault; a truthy latest version is stored; on a clean purge storage holds exactly that version |
| UpdateCheck.ScenarioNewVersion | js/update-checker.js:78-99 | a stored 1.0.0 against a published 1.0.1 updates, purges everything, stores 1.0.1 and reloads once |
| UpdateCheck.UpdateSettles | js/update-checker.js:17-45 | after an update to a non-empty version, the next load reads it back and does not update again |
| UpdateCheck.MissingVersionRepeatsUpdate | js/update-checker.js:40-45 | a document without a version field updates, saves nothing and keeps the old stored version |
| UpdateCheck.Window.constructor | js/update-checker.js:106-155 | the browser snapshot is the given storage, registrations, caches and elements, with no overlay and no reload |
| UpdateCheck.UpdateChecker.constructor | js/update-checker.js:7-11 | both versions `null`, not updating |
| UpdateCheck.UpdateChecker.Init | js/update-checker.js:14-29 | reads the stored version and checks; on a first run it saves the latest known version; a failed check with a stored version changes nothing |
| UpdateCheck.UpdateChecker.CheckForUpdates | js/update-checker.js:31-54 | a failed fetch changes nothing; otherwise the latest version is recorded and the update sequence runs exactly when `NeedsUpdate` holds, that is when a stored version differs from it |
| UpdateCheck.UpdateChecker.ShowUpdateModal | js/update-checker.js:56-76 | one overlay is added, then the update sequence runs |
| UpdateCheck.UpdateChecker.StartUpdate | js/update-checker.js:78-99 | sets `isUpdating` and the browser ends as `UpdateSequence` of its earlier state |
| UpdateCheck.UpdateChecker.ClearAllCaches | js/update-checker.js:101-161 | the browser ends as `Purge` of its earlier state for the given fault |
| UpdateCheck.UpdateChecker.ForceResourceReload | js/update-checker.js:163-205 | the elements end as `RefreshAll` of the earlier ones |
| UpdateCheck.UpdateChecker.RefreshKind | js/update-checker.js:169-176 | one `forEach` pass ends as `RefreshPass` of the earlier elements |
| UpdateCheck.UpdateChecker.SaveCurrentVersion | js/update-checker.js:207-213 | storage and `currentVersion` take a truthy latest version, and nothing changes otherwise |
| UpdateCheck.UpdateChecker.ManualCheck | js/update-checker.js:220-222 | the same outcomes as `checkForUpdates`: a failed fetch changes nothing; otherwise the latest version is recorded, and the update sequence runs, with `isUpdating` set and the stored version adopted, exactly when it differs from the latest |
| UpdateCheck.OnWorkerMessage | js/update-checker.js:231-239 | any other message, and a `CACHE_UPDATED` whose fetch fails, leaves the page state and both versions unchanged; otherwise the latest version is recorded, and when `NeedsUpdate` holds the page ends as the update sequence after one more overlay, with one reload and `isUpdating` set, while otherwise nothing else changes |
| ServiceWorker.DefaultIsVersion101 | sw.js:2 | the default generation is the one for version 1.0.1 |
| ServiceWorker.CacheNameFor | sw.js:27 | a generation name is the prefix `dinamus-lisboa-v` followed by the printed version |
| ServiceWorker.FirstPathIn | sw.js:31-43 | picks the first versioned path the URL contains, or none when it contains none |
| ServiceWorker.VersionedUrl | sw.js:30-44 | an entry containing a versioned path becomes that path with `?v=<version>` (first match wins), and any other entry is unchanged |
| ServiceWorker.VersionedUrls | sw.js:30-44 | the mapping keeps the length and order and maps each entry alone |
| ServiceWorker.EarlierPathsAbsent | sw.js:31-41 | a versioned path with a plain version contains none of the paths tested before it |
| ServiceWorker.VersionedPathRecognised | sw.js:31-41 | a versioned path with a plain version is recognised as the same path again |
| ServiceWorker.VersionedUrlTwice | sw.js:30-44 | re-applying a version to an entry replaces its plain version, and the same version is a no-op |
| ServiceWorker.VersionedUrlsTwice | sw.js:30-44 | re-loading the configuration maps the list as if from the original, and the same version leaves it unchanged |
| ServiceWorker.VersionedPathsCritical | sw.js:75-78 | every versioned app-shell entry satisfies `IsCritical`, so it is served network-first |
| ServiceWorker.MatchIndex | sw.js:92-98 | the first cache, in creation order, that holds the URL, or none if no cache holds it |
| ServiceWorker.CacheMatch | sw.js:92-98 | `caches.match` answers with that cache's response, and with nothing exactly when no cache holds the URL |
| ServiceWorker.FetchAll | sw.js:65 | `addAll` succeeds iff every URL gets an ok response, and then it stores each URL's response |
| ServiceWorker.KeepOnly | sw.js:110-119 | activation keeps exactly the current name, if present, as a subsequence |
| ServiceWorker.Announcements | sw.js:124-133 | one `CACHE_UPDATED` per client, in order, with version and cache name both the current name |
| ServiceWorker.MatchSingleGeneration | sw.js:107-119 | once only the current generation is left, a lookup answers from that generation alone |
| ServiceWorker.Worker.constructor | sw.js:2-18 | default name and app shell over the caches that already exist |
| ServiceWorker.Worker.LoadVersionConfig | sw.js:21-54 | on success the name and list follow the version, and on failure both are unchanged |
| ServiceWorker.Worker.OpenCache | sw.js:62-85 | `caches.open` creates a missing cache empty and last in creation order, and leaves an existing one alone |
| ServiceWorker.Worker.Install | sw.js:57-70 | loads the configuration, then the creation order and the caches end exactly as `CacheShell` leaves them for the new generation |
| ServiceWorker.Worker.CacheShell | sw.js:61-65 | the creation order gains the generation iff it is new, Cache Storage becomes `Installed` of the old one, and after a successful `addAll` each shell URL holds its response |
| ServiceWorker.Worker.PutAll | sw.js:65 | the fetched entries are added to the current generation, and nothing else changes |
| ServiceWorker.Installed | sw.js:61-65 | the caches are the old ones plus the generation; other caches are unchanged; the generation keeps its old entries and gains exactly the fetched ones, or nothing if `addAll` failed |
| ServiceWorker.ShellStored | sw.js:65 | after a successful `addAll` each URL of the list holds the response the network gave for it |
| ServiceWorker.Opened | sw.js:62 | `caches.open` yields the existing cache, or an empty one |
| ServiceWorker.OrderAfterOpen | sw.js:62 | opening a cache that does not exist puts it last in creation order, and opening an existing one leaves the order alone |
| ServiceWorker.Worker.Fetch | sw.js:73-104 | critical: a network response is returned and put into the current generation, which is opened if needed, and nothing else in Cache Storage changes; a network error falls back to the caches; otherwise cache hit, then network, never storing |
| ServiceWorker.Worker.Activate | sw.js:107-136 | only the current generation remains, with its contents, and each client is sent the current version |
| ServiceWorker.Worker.Announce | sw.js:124-133 | the messages added are exactly `Announcements` of the clients |
| ServiceWorker.Worker.OnMessage | sw.js:139-146 | a reply comes iff the message is `GET_VERSION`, and it carries the current name twice |
| ConferenceModal.PastHalf | js/conferencia-modal.js:110-111 | past half means twice the scroll exceeds a positive scroll range, and any positive scroll over an empty range |
| ConferenceModal.PastHalfMonotone | js/conferencia-modal.js:110-111 | scrolling further never drops back under half way |
| ConferenceModal.Modal.constructor | js/conferencia-modal.js:7-15 | closed, hidden, no events, auto-show pending |
| ConferenceModal.Modal.Open | js/conferencia-modal.js:51-73 | no-op when open; otherwise open, shown, scroll locked, one `modalOpened` |
| ConferenceModal.Modal.Close | js/conferencia-modal.js:75-98 | no-op when closed; otherwise closed, one `modalClosed`, one hide timer pending; events keep alternating |
| ConferenceModal.Modal.HideTimerFires | js/conferencia-modal.js:87-91 | hides the element and unlocks scrolling whatever `isOpen` is |
| ConferenceModal.Modal.OnKeyDown | js/conferencia-modal.js:30-34 | Escape on an open modal closes it with one `modalClosed` and exactly one more hide timer pending; any other key, or Escape on a closed modal, changes nothing |
| ConferenceModal.Modal.OnWheel | js/conferencia-modal.js:37-41 | default prevented iff open, that is iff the last event is `modalOpened` |
| ConferenceModal.Modal.OnDocumentClick | js/conferencia-modal.js:44-48 | either show button leaves the modal open; on a closed modal it appends one `modalOpened`, shows the element and locks scrolling; any other click, or a show click on an open modal, leaves open state, events, visibility and scroll lock unchanged |
| ConferenceModal.Modal.OnAutoShowTimer | js/conferencia-modal.js:102-104 | the timer fires once and leaves the modal open; a closed modal gets one `modalOpened`, is shown and locks scrolling, while an open one keeps its events, visibility and scroll lock |
| ConferenceModal.Modal.OnScroll | js/conferencia-modal.js:107-116 | the first scroll past half while closed opens the modal with one `modalOpened`, shows it and locks scrolling; every other scroll leaves open state, events, visibility and scroll lock unchanged; the scroll trigger opens it at most once per page |
| ConferenceModal.Modal.Show | js/conferencia-modal.js:125-127 | as `openModal`: afterwards open; a closed modal gets one `modalOpened`, is shown and locks scrolling; an open one keeps its events, visibility and scroll lock |
| ConferenceModal.Modal.Hide | js/conferencia-modal.js:130-132 | as `closeModal`: afterwards closed; an open modal gets one `modalClosed` and one more hide timer pending, a closed one keeps its events and pending timers |
| ConferenceModal.Modal.IsModalOpen | js/conferencia-modal.js:135-137 | returns `isOpen`, which holds iff an odd number of events was dispatched |
| ConferenceModal.ReopenWithinCloseDelay | js/conferencia-modal.js:51-98 | open, close, open, then the close timer: the modal is open but hidden |
| HomePage.NoneActive | js/main.js:246-262 | every card inactive |
| HomePage.CardClicked | js/main.js:232-241 | the clicked card flips; an active card leaves the others alone, and an inactive one switches all others off |
| HomePage.ClickKeepsAtMostOne | js/main.js:220-253 | every click keeps at most one card active |
| HomePage.ClickTwiceClears | js/main.js:232-241 | two clicks on an inactive card leave no card active |
| HomePage.OnClick | js/main.js:225-253 | the cards end as `AfterClick` of the earlier cards: a click inside a link changes nothing, a card click toggles as above, and a click elsewhere clears all |
| HomePage.OnKeyDown | js/main.js:256-262 | Escape clears all cards and other keys change nothing |
| HomePage.DeactivateAll | js/main.js:236-251 | the `forEach` leaves every card inactive |
| HomePage.SectionFor | js/main.js:167-173 | hero iff above encontros minus 200; visite iff past both thresholds |
| HomePage.SectionMonotone | js/main.js:167-173 | scrolling down never selects a section above the current one |
| HomePage.FirstWithHref | js/main.js:128-135 | `querySelector` finds the first link with exactly that href, or none |
| HomePage.MarkedExactly | js/main.js:114-140 | `Marked`, the highlight flags after `updateActiveMenu`, keeps the length of the link list and, with distinct hrefs, highlights exactly the link for the target among in-page links |
| HomePage.MarkedOnlyFirst | js/main.js:128-139 | with repeated hrefs only the first matching link is highlighted |
| HomePage.MenuLinks.constructor | js/main.js:110-111 | one plain flag per link |
| HomePage.MenuLinks.Mark | js/main.js:116-139 | the group's flags end as `Marked` of the earlier flags |
| HomePage.UpdateActiveMenu | js/main.js:114-140 | both groups end as `Marked` for `#id` |
| HomePage.OnScroll | js/main.js:156-175 | with all three sections present, both groups mark the section in view, and otherwise nothing changes |
| HomePage.InitialHighlight | js/main.js:178-185 | marks the hero link only when above the encontros threshold |
| HomePage.InitialAgreesWithScroll | js/main.js:167-183 | the initial highlight picks hero exactly when the scroll handler would |
| HomePage.HighlightGroupsPage | js/main.js:188-214 | on the groups page, the in-page links are plain and that page's link is highlighted |
| MobileMenu.RouteLink | js/mobile-menu.js:44-75 | external links (`IsExternal`: an href starting with `http` or target `_blank`) keep their default; in-page links scroll to 80 px above the target or do nothing; other links navigate to the href |
| MobileMenu.HttpLinksFollowDefault | js/mobile-menu.js:49-54 | an `http` link is always left to the browser |
| MobileMenu.Menu.constructor | js/mobile-menu.js:15 | closed and in sync |
| MobileMenu.Menu.OnButtonClick | js/mobile-menu.js:17-38 | flips the flag and each class, attaches Escape iff now open, and keeps the menu in sync |
| MobileMenu.Menu.Close | js/mobile-menu.js:85-91 | from any state, closed and in sync (so idempotent) |
| MobileMenu.Menu.OnKeyDown | js/mobile-menu.js:93-97 | Escape closes only while the handler is attached |
| MobileMenu.Menu.OnLinkClick | js/mobile-menu.js:44-75 | a link without an href throws before acting; any other link closes the menu and is routed |
| MobileMenu.Menu.OnMenuAreaClick | js/mobile-menu.js:79-83 | only a click on the menu element itself closes the menu |
| MobileMenu.Menu.GlobalAnchorClose | js/global.js:107-114 | clears the three classes of an active menu; the flag and the listener stay |
| MobileMenu.DesyncAfterGlobalAnchorClick | js/global.js:107-114 | open, shared anchor click, button click: the menu shows while the flag says closed and Escape is detached |

## Left out

- Rendering: card and overlay markup, class names beyond the state flags, animations, IntersectionObserver effects, video, map and WhatsApp links. These are cosmetic.
- Timers: delays and debounces are dropped or become explicit steps (`HideTimerFires`, `OnAutoShowTimer`; the search debounce is `OnSearchInput`). The 100 ms entrance animation and the 300 ms menu navigation delay are folded into their handlers.
- Promise interleaving: each handler is atomic, and `startUpdate`'s 1500 ms delay is dropped. Re-entrant `checkForUpdates` calls from `CACHE_UPDATED` are whole calls in some order.
- Feature detection (`'serviceWorker' in navigator`, `'caches' in window`, missing DOM elements) is taken as present. The exceptions are the three home-page sections and the modal's show buttons, which are modelled.
- The console logging and the per-cache counts of `clearAllCaches` have no effect and are not modelled.
- `hasUserInteracted` and the interaction marker are never read by the modal logic, so they are not modelled.
- UpdateCheck.UpdateChecker.ForceResourceReload: uses one `now` for the whole refresh, while the source reads `Date.now()` once per element.
- UpdateCheck.CacheBusted: the version is printed with `Text`, so only string, `null` and missing versions are modelled. The same holds for `ServiceWorker.CacheNameFor`. Numeric versions in the JSON are not modelled.
- UpdateCheck.UpdateChecker.Init: the checker's constructor starts `init` without awaiting it. The model runs `Init` as a separate step.
- ServiceWorker.VersionedUrlTwice: the idempotence is proved for versions made of digits and dots. A version holding letters could make an entry match an earlier path.
- ServiceWorker.Worker.Fetch: every request is a GET identified by its URL. `cache.put`'s refusal of 206 responses and of `Vary: *` is not modelled.
- ServiceWorker.FetchAll: `addAll`'s rejection of duplicate requests is not modelled. The app shell has none.
- ServiceWorker.Worker.OnMessage: a `GET_VERSION` message without a reply port would throw, and this is not modelled.
- ConferenceModal.PastHalf: computed in exact arithmetic, so floating-point rounding of the scroll percentage is not modelled.
- HomePage.UpdateActiveMenu: the desktop and mobile link groups are disjoint lists. A mobile link inside a `nav` element, which the desktop selector would also match, is not modelled. An id that is not a valid selector would make `querySelector` throw, and this is not modelled either.
- MobileMenu.RouteLink: the scroll target's top is an input (`None` when `querySelector` finds nothing or the href is not a valid selector). The smooth-scroll easing is floating point and is not modelled.
- Lower-casing is ASCII only, so Unicode case mapping is not modelled.
- Groups.Directory.ApplyFilter: the "all" button is taken as present in the markup. `obterNomeRegiao`'s lookup of inherited object keys such as `constructor` is not modelled.
- The js/dizimos-e-ofertas.js and tailwind.config.js files are not part of this model. Neither is the rest of js/global.js beyond its anchor handler's menu clearing.
