# Windowed visibility cache of the ChatGPT Long Chat Optimizer, in Dafny

The extension keeps a long chat transcript light by showing only a window of
message elements and hiding the rest. This project models the core of that as
a functional state machine and proves properties of it.

- **Node identity** (`Identity`). An element's id is its `data-testid`. When that is missing or empty, a `fallback-…` id is synthesised once and written back onto the element.
- **Windowed visibility cache** (`ChatManager`). It holds the ordered list `allTurns`, the id→element map `nodeCache`, and the integer window `[lowestIndex, highestIndex]`. It can rebuild from a scan of the container, reset the window to the most recent `KEEP_RECENT` elements, extend the window backward by `CHUNK_SIZE` clamped at 0, append unseen elements, resync `style.display`, and report stats. `Cycle` is the rebuild → window reset → resync sequence that the event handlers run.
- **Mutation watcher** (`MutationWatcher`). It covers both handlers. `Current` is src/content/MutationWatcher.js and `Legacy` is the root MutationWatcher.js. Added nodes are fed to `addNewNode` under the `||=` short-circuit. When one fed node was new, one rebuild cycle runs. The module also has the `start`/`stop` observer state.
- **Scroll decisions** (`ScrollManager`). This is the up-scroll trigger for backward extension, the `window.disableAutoScroll` suspend flag, and the bounded "force scroll to bottom" interval. Each interval firing is one step.
- **Scroll button** (`ScrollButton`, `ClickHandler`). This is the near-bottom visibility rule, the native-button retry counter, and the click handler. The root ScrollButton.js and src/components/ScrollButton.js have the same logic. So do utils.js and src/utils/utils.js. Each pair is modelled once, and the table cites both copies.
- **Cleanup registry** (`Lifecycle`). It covers `register` and `cleanupAll`.

How the page is represented:
- Elements are `Handle`s.
- The page's element state is `Dom`: testids, display flags, and a counter standing for `Date.now()`/`Math.random()`.
- A query of the container is a `Page`: whether a container exists, and its message elements in document order.
- Mutation records are sequences of `AddedNode`.
- Scroll metrics and bounding-rect offsets are exact `real` inputs.
- The config.js knobs are a `Config` value. `Defaults` is 50 / 20 / 300 / 0.05.

## Model

| member | source | states |
|---|---|---|
| `Identity.GetNodeId` | src/utils/utils.js:11-19 | A non-empty existing testid is returned and nothing is written. A missing or empty one is replaced by a `fallback-`-prefixed id stored on the element. The result is never empty. No other element's id changes, and ids already assigned stay as they are |
| `Identity.GetNodeIdIdempotent` | utils.js:11-21 | A second lookup of the same element returns the same id and writes nothing |
| `Identity.GetNodeIdLeavesOthers` | utils.js:18-20 | The write-back touches only the looked-up element: every other element keeps whether it has an id, and keeps the id itself |
| `ChatManager.GetConversationContainer` | src/managers/VirtualChatManager.js:22-27 | Once a container has been found it stays found whatever the page offers later. Otherwise it is found exactly when the page has one |
| `ChatManager.Scan` | src/managers/VirtualChatManager.js:41-47 | The list grows by the scanned elements in scan order. Every scanned element ends up with an id, and ids already assigned are kept. List/map consistency is preserved, and the window is untouched |
| `ChatManager.ScanLastWins` | src/managers/VirtualChatManager.js:41-46 | After a scan, the map's keys are the old keys plus the scanned ids. Each scanned id maps to the last scanned element that carries it. Any other old key keeps its element |
| `ChatManager.LastWinsUnique` | src/managers/VirtualChatManager.js:44 | That description pins the map down: two maps meeting it for the same elements and ids are equal |
| `ChatManager.EnterStepConsistent` | src/managers/VirtualChatManager.js:42-45 | Entering one element in both list and map keeps every listed element's id a key and every key pointing at a listed element with that id |
| `ChatManager.NewManager` | src/managers/VirtualChatManager.js:9-15 | The constructor's state: empty list and map, no cached container, `lowestIndex = highestIndex = 0` |
| `ChatManager.RebuildMessageCache` | src/managers/VirtualChatManager.js:32-47 | Without a container, list and map are left empty. With one, the list is exactly the scanned elements. Either way the result is consistent, the indices are unchanged, and existing ids are stable |
| `ChatManager.UpdateWindowIndices` | src/managers/VirtualChatManager.js:55-57 | `highestIndex = len-1`. Index `i ≥ 0` is in the window iff `len-KEEP_RECENT <= i < len`. So `visible = min(KEEP_RECENT, len)`, and only the indices move |
| `ChatManager.ResyncDOM` | src/managers/VirtualChatManager.js:66-71 | With no container nothing happens. With one, each element is shown exactly when its last index in the list is inside the window. Elements outside the list keep their display |
| `ChatManager.ExtendWindowBackward` | src/managers/VirtualChatManager.js:80-84 | Only `lowestIndex` moves, to `lowest-CHUNK_SIZE` or 0, and it never increases. The call reports true iff the index changed, so at 0 it reports false and changes nothing |
| `ChatManager.GetLoadedStats` | src/managers/VirtualChatManager.js:98-103 | `total` is the list length. For a window inside the list, `0 <= visible <= total`. `visible` is 0 or less exactly when the window is empty (`highest < lowest`) |
| `ChatManager.AddNewNode` | src/managers/VirtualChatManager.js:110-118 | It returns true iff the element's id was not a key. Then the element is appended and entered in the map. Otherwise list, map and window are unchanged. In both cases the element ends up with an id |
| `ChatManager.Cycle` | src/content/MutationWatcher.js:28-32 | After rebuild → update → resync: the list is the scanned page (or empty without a container), the window is the tail window, stats are `(min(KEEP_RECENT, len), len)`, the cache is consistent, and each element is shown exactly when its last index is in the window |
| `CacheProperties.CycleShowsExactlyTail` | src/managers/VirtualChatManager.js:55-71 | On a page that lists each element once, a rebuild cycle with a container shows listed index `i` exactly when `len - KEEP_RECENT <= i` |
| `CacheProperties.FreshManager` | src/managers/VirtualChatManager.js:9-15 | A new manager has an empty list and map and `lowest = highest = 0`. Its stats therefore read visible 1 of total 0, and its window is not inside the list |
| `CacheProperties.RebuildIdempotent` | src/managers/VirtualChatManager.js:32-47 | Rebuilding twice over the same page gives the same manager and page state as rebuilding once |
| `CacheProperties.RebuildKeepsDuplicateIds` | src/managers/VirtualChatManager.js:41-46 | Two scanned elements with one id are both listed while the map keeps only the later one, so list length 2 differs from map size 1 |
| `CacheProperties.TailWindowExamples` | src/managers/VirtualChatManager.js:55-57 | 80 elements with KEEP_RECENT 50 give window `[30, 79]` and stats (50, 80). An empty list gives `highest = -1`, stats (0, 0) and no index in the window |
| `CacheProperties.EmptyContainer` | src/managers/VirtualChatManager.js:98-102 | A cycle over an empty container reports (0, 0) and shows no index |
| `CacheProperties.ExtendKeepsWindowInRange` | src/managers/VirtualChatManager.js:82 | Extending keeps a valid window valid, keeps `highestIndex`, and reveals exactly `min(CHUNK_SIZE, lowestIndex)` more elements |
| `CacheProperties.ExtendExample` | src/managers/VirtualChatManager.js:80-84 | From 30: 10 (changed), then 0 (changed), then no change |
| `CacheProperties.ExtendTimesClamps` | src/managers/VirtualChatManager.js:81-83 | `n` extensions give `lowestIndex = max(0, lowest - n*CHUNK_SIZE)` and leave `highestIndex` alone |
| `CacheProperties.AddPreservesInvariants` | src/managers/VirtualChatManager.js:110-118 | `addNewNode` preserves list/map consistency, distinctness of listed ids, and a valid window |
| `CacheProperties.AddSameNodeTwice` | src/managers/VirtualChatManager.js:111-112 | Feeding the same element again returns false and changes nothing |
| `CacheProperties.CacheSizeMatchesList` | src/managers/VirtualChatManager.js:112-115 | In a consistent state with distinct ids, which is every state built by `addNewNode`, map size equals list length |
| `CacheProperties.AddAllCountsNewIds` | src/managers/VirtualChatManager.js:110-118 | Over any sequence of direct `addNewNode` calls, the list grows by exactly the number of distinct fed ids that were not already keys |
| `CacheProperties.FreshTotalIsDistinctIds` | src/managers/VirtualChatManager.js:110-118 | From the constructor, the total after feeding is the number of distinct ids fed |
| `CacheProperties.AddAllPreservesInvariants` | src/managers/VirtualChatManager.js:111-115 | A run of `addNewNode` calls keeps list/map consistency and distinct listed ids, so the map has one entry per listed element |
| `CacheProperties.AddedStateShowsExactlyWindow` | src/managers/VirtualChatManager.js:66-71 | After a run of `addNewNode` calls from a consistent state, a resync shows each listed index exactly when it lies in the window |
| `CacheProperties.ResyncShowsExactlyWindow` | src/managers/VirtualChatManager.js:69-71 | Over a list without repeats, every index `i` is shown iff `lowestIndex <= i <= highestIndex` |
| `CacheProperties.VisibleCountIsShownCount` | src/managers/VirtualChatManager.js:98-102 | For a valid window, `visible = highest-lowest+1` is the number of indices the window covers, and `total` is the list length |
| `MutationWatcher.NodeCandidates` | src/content/MutationWatcher.js:49-60 | A non-element offers nothing. Everything offered is the element itself (only when it matches) or one of its matching descendants. The legacy handler (MutationWatcher.js:34-45) offers both, `[matches] + descendants`; the current one offers one or the other |
| `MutationWatcher.Feed` | src/content/MutationWatcher.js:46-62 | The elements passed to `addNewNode` are a prefix of the candidates. Once the accumulator is true no call is made. At most one element is appended, namely the last one fed, and every earlier fed element was already cached. If none was new, the manager is unchanged and every candidate was fed |
| `MutationWatcher.UpdateOverlay` | src/content/MutationWatcher.js:34-38 | The overlay's presence and visibility never change. A visible overlay gets the given stats, and a hidden one is left as it was |
| `MutationWatcher.HandleMutations` | src/content/MutationWatcher.js:45-69 | The cycle runs iff some fed element was uncached. If it runs, the result is the tail window over the rescanned page, shown accordingly. If not, the manager, display and overlay are untouched. The overlay is refreshed with the new stats only in the current variant, and only when it exists and is visible |
| `MutationWatcher.NewWatcher` | src/content/MutationWatcher.js:8-12 | The constructor keeps the given chat manager and holds no observer, so nothing is live and nothing is leaked. The root MutationWatcher.js:7-10 is the same without the overlay |
| `MutationWatcher.Start` | src/content/MutationWatcher.js:18-26 | It throws iff there is no chat manager. Otherwise a new observer is connected, adding one live observer |
| `MutationWatcher.Stop` | src/content/MutationWatcher.js:74-77 | It is a no-op before any `start`. Otherwise the current observer is disconnected and only leaked earlier observers stay live |
| `MutationWatcher.StartStopLifecycle` | MutationWatcher.js:16-62 | Without a manager `start` throws. `stop` before `start` changes nothing. Start then stop leaves nothing live, and a further stop changes nothing. Starting twice then stopping leaves one observer live |
| `MutationWatcher.CandidateShapes` | MutationWatcher.js:33-45 | A non-element offers nothing. A matching element offers itself alone in the current handler, but itself followed by its matching descendants in the legacy handler. A non-matching element offers its matching descendants in both. The current handler's list is a prefix of the legacy one |
| `MutationWatcher.NonElementsIgnored` | src/content/MutationWatcher.js:49 | Inserting a non-element node anywhere in a record leaves the fed candidates unchanged |
| `MutationWatcher.CurrentWithinLegacy` | MutationWatcher.js:37-45 | Every element the current handler can feed, the legacy handler can feed too |
| `MutationWatcher.LegacyRebuildsWhenCurrentDoes` | MutationWatcher.js:30-54 | When every offered element already carries a testid, the legacy handler runs the rebuild cycle whenever the current handler would. Its candidates include all of the current handler's, so it meets the same uncached id |
| `MutationWatcher.ShortCircuitExample` | src/content/MutationWatcher.js:53 | Three new elements in one batch: only the first reaches `addNewNode`, and the cycle runs |
| `ScrollButton.UpdateVisibility` | src/components/ScrollButton.js:85-97 | Without a button or container nothing changes. Otherwise the button is hidden iff the distance to the bottom is at most `clientHeight * DYNAMIC_BOTTOM_RATIO` |
| `ScrollButton.NearBottomMonotone` | ScrollButton.js:88-94 | With the same viewport, scrolling further down never turns "near bottom" off |
| `ScrollButton.Init` | src/components/ScrollButton.js:25-54 | The button's container is the manager's lookup. A miss of the native button with a container adds one retry and warns iff fewer than 3 retries were counted before. The button is injected, and shown, exactly when both the container and the native button are found. The chat manager changes only in its cached container |
| `ScrollButton.InitWarningsCapped` | src/components/ScrollButton.js:35-41 | Over `n` misses the retry count grows by `n`, and the warnings number `min(3, c+n) - min(3, c)` |
| `ScrollButton.NewButton` | src/components/ScrollButton.js:13-19 | The constructor: no button injected, no container, and a retry count of 0 |
| `ScrollButton.FreshButtonWarnings` | ScrollButton.js:35-41 | A fresh button that misses `n` times warns `min(3, n)` times |
| `ScrollManager.Attach` | ScrollManager.js:26-36 | The listener's container is set iff the chat manager's lookup finds one, and nothing else changes |
| `ScrollManager.OnScroll` | ScrollManager.js:42-65 | With no container, or with the suspend flag set, nothing changes, not even `lastScrollTop`. Otherwise `lastScrollTop` takes the sample. The window extends iff scrolling up below `TOP_THRESHOLD`. The display changes only if `lowestIndex` moved, and then shows the new window. The button becomes exactly what `updateVisibility` makes of it |
| `ScrollManager.Tick` | ScrollManager.js:90-115 | An idle interval does nothing. A firing keeps the interval running exactly when there is a last child, its offset is above 5 and fewer than 10 attempts have been counted. It then counts one more attempt and moves `scrollTop` by the offset. Otherwise the interval stops and the flag is cleared. The attempt bound is kept |
| `ScrollManager.TicksTerminate` | ScrollManager.js:86-115 | A running interval stops within its remaining attempts and nudges fewer times than that. The flag holds while it runs and is cleared when it stops |
| `ScrollManager.ForcedScrollBounded` | ScrollManager.js:82-116 | Without a container nothing happens. Otherwise any running interval is replaced by one with the full 10-attempt budget. It stops after at most 10 firings, nudges at most 9 times, and leaves the flag cleared |
| `ScrollManager.ForceScrollToBottom` | ScrollManager.js:82-89 | Without a container nothing happens. Otherwise the suspend flag is set and any earlier interval is replaced by a fresh one at 0 attempts |
| `ScrollManager.ScrollSuspendedWhileForcing` | ScrollManager.js:43 | While a forced scroll runs, scroll samples change nothing, provided only interval firings happen meanwhile and no click's flag reset fires. `ClickHandler.EarlyResetDuringSecondForce` shows the case where one does |
| `ScrollManager.UpScrollAtTopIsStable` | ScrollManager.js:58-63 | With the window already at 0, no scroll sample changes the window or the display |
| `ClickHandler.HandleClick` | src/components/ScrollButton.js:61-80 | With no container nothing changes. Otherwise the flag is set, the list is the rescanned page, the window is the tail window, each element is shown exactly when its last index is in it (resync ran after the reset), a fresh forced-scroll interval is running, and one flag reset is scheduled |
| `ClickHandler.ClickShowsExactlyTail` | src/components/ScrollButton.js:71-73 | After a click on a page that lists each element once, listed index `i` is shown exactly when `len - KEEP_RECENT <= i` |
| `ClickHandler.FlagResetFires` | ScrollButton.js:77-79 | A pending 1500 ms timeout clears the flag and is used up. With none pending, nothing happens |
| `ClickHandler.ClickSuspendsUntilTimeout` | ScrollButton.js:67-79 | Right after a click, scroll samples change nothing. The delayed reset then clears the flag. The forced scroll stopping also clears it, per `ScrollManager.TicksTerminate`, possibly before the timeout |
| `ClickHandler.EarlyResetDuringSecondForce` | src/components/ScrollButton.js:69-79 | Two clicks less than 1.5 s apart: when the first click's reset fires, the second click's forced scroll is still running but the flag is cleared. A scroll sample is then handled (`lastScrollTop` moves) during the forced scroll |
| `Lifecycle.NewRegistry` | src/managers/LifeCycleManager.js:2-4 | The constructor: nothing is registered |
| `Lifecycle.Register` | src/managers/LifeCycleManager.js:6-8 | The registry grows by one entry at the end, and earlier entries stay in place |
| `Lifecycle.Invocations` | src/managers/LifeCycleManager.js:11 | At most one call per registration. Every call but the last returns normally. When some registered function throws, the last call is the one that threw. When none throws, exactly the non-null registrations are called |
| `Lifecycle.ThrowStopsCalls` | src/managers/LifeCycleManager.js:11 | The first throwing function ends the calls: the calls are those before it, then it, and nothing registered later |
| `Lifecycle.CleanupAll` | src/managers/LifeCycleManager.js:10-13 | It makes the calls above, in registration order, skipping nulls. If none throws, the registry is emptied. If one throws, the exception escapes and the registry is left unchanged |
| `Lifecycle.RegisterRunsLast` | src/managers/LifeCycleManager.js:2-8 | A fresh registry calls nothing. A new registration is called after every earlier one, unless an earlier one throws, in which case it is never reached. A null registration adds no call |
| `Lifecycle.ThrowingFirstCleanup` | src/managers/LifeCycleManager.js:10-12 | When the first registration throws, `cleanupAll` calls only it |

### Behaviours of the code worth knowing

- Calling `start` twice leaves the first observer connected (src/content/MutationWatcher.js:23-24). `stop` disconnects only the latest one (:75). This is `Watcher.leaked` in `MutationWatcher.StartStopLifecycle`.
- One mutation batch with several new elements calls `addNewNode` only until the first one returns true (`||=`, src/content/MutationWatcher.js:53 and :58). The rebuild that follows rescans the whole container (:29). So the total after the batch is the size of the scan. Direct `addNewNode` calls instead add one element per new distinct id (`CacheProperties.AddAllCountsNewIds`).
- "Near bottom" includes the boundary: the comparison is `>=` (src/components/ScrollButton.js:92). The button is hidden when the remaining distance equals `clientHeight * DYNAMIC_BOTTOM_RATIO`.
- `highestIndex` is `len-1` only right after `updateWindowIndices` (src/managers/VirtualChatManager.js:56). The constructor sets `[0, 0]` (:12-13), and `addNewNode` (:110-118) does not move the window.
- `getLoadedStats` computes `highest - lowest + 1` (src/managers/VirtualChatManager.js:100). The constructor state therefore reports 1 visible of 0 total, while an empty list after a reset (`[0, -1]`) reports 0.
- `cleanupAll` clears the registry only after every callback returns (src/managers/LifeCycleManager.js:11-12). A throwing callback stops the remaining calls and leaves the registry as it was.

## Left out

- content-script.js (both copies): bootstrap, `waitForContainer` polling, URL-change interval and runtime messaging. This is event plumbing.
- background.js (both copies): browser tab and command messaging, which are foreign APIs.
- OverlayUI.js (both copies): element creation, styling, localStorage and number formatting. The overlay is modelled only as "present, visible, last stats shown".
- The overlay refresh at the end of `onScroll` (ScrollManager.js:67-74). It only feeds that UI.
- `Logger` and all console output. Warnings appear only as the `warned` flag of `ScrollButton.Init`.
- config.js, src/config/constants.js and webpack.config.js. The numbers enter as `Config`, and selectors as the `matches` flag and the `Page` contents.
- DOM querying (`querySelector`, `matches`, `getBoundingClientRect`) is replaced by inputs.
- Timers: the `attach`/`init` retries are repeated calls, each `setInterval` firing is one `Tick`, and the 1500 ms timeout is `FlagResetFires`.
- Fallback ids use a counter rendered in decimal instead of `Date.now()`/`Math.random()`, so no property depends on their randomness.
- Scroll metrics are exact reals. Floating-point rounding and the browser clamping `scrollTop` are not modelled.
- Cloning and inserting the custom button, `preventDefault`/`stopPropagation`, `setScrollManager` and the `getContainer` alias are not modelled. They have no effect on the cache.
- ScrollManager: the root ScrollManager.js is modelled. The copy that src/content/content-script.js imports as `@managers/ScrollManager` is taken to behave the same, without checking.
- VirtualChatManager: src/managers/VirtualChatManager.js is modelled. The root handlers (MutationWatcher.js, ScrollManager.js, ScrollButton.js) drive the root `./VirtualChatManager.js` that content-script.js imports. That file is taken to behave like the src one, without checking.
- Configuration: the numbers are those of the root config.js. The src configuration that the src files import as `@config/config` is taken to carry the same values, without checking.
- `ChatManager.ResyncDOM`: when an element occurs twice in the list, the contract speaks of its last index only, because the later write wins. `CacheProperties.ResyncShowsExactlyWindow` gives the per-index statement for lists without repeats.
- Scroll position: the position the forced scroll nudges (`Ui.scrollTop`) and the samples `onScroll` and `updateVisibility` read (`Sample.scrollTop`) are the same `container.scrollTop` in the code (ScrollManager.js:45 and :109). The model takes samples as free inputs, not tied to the nudged position. No proved property depends on the link, because every property holds for all samples.
