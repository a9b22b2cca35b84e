# ReaderApp reading state and navigation chrome, modelled in Dafny

ReaderApp is a React Native browser for a catalog of reading sites. This
project models its core logic:

- **The reading-state store** (`utils/storage.js`). Three keys of the device's
  key-value medium hold the last visited page, the favourites and the reading
  history. Adding a favourite or a history entry drops any older entry for the
  same url and puts the new one first. The history is then cut to 50 entries.
  Every read and write may fail. A failure is swallowed and the caller gets a
  default (`null`, `[]`) or nothing.
- **The navigation-chrome controller** shared by the two web-view screens.
  It tracks `showNavigation`, the `hideTimeoutRef` handle and the pending
  `setTimeout` callbacks. Mounting arms a 3000 ms hide timer. A touch shows
  the controls and re-arms the timer. A due timer hides the controls.
  Unmounting cancels the timer in the reader. In the selector screen
  (`components/WebViewSelector.js`, which `App.js` never imports or renders),
  unmounting does not cancel it.
- **The reader session** (`components/WebViewReader.js`). It picks the opening
  URL, records the visit and a history entry on mount and on every navigation,
  favourites the current page, and forwards back/forward only when the browser
  allows it.
- **The shell around them**: the app's screen switch (`App.js`), the
  quick-actions panel (`components/QuickActions.js`) and the appearance
  provider (`utils/themeContext.js`). No file renders the quick-actions panel.
  Its props (`onSiteSelect`, `onShowFavorites`) are the ones `App.js` passes to
  its home screen, so the model takes `onSiteSelect` to be the shell's
  `handleSiteSelect`.

Modules, one per source file or concern:

- `Entries` (entries.dfy): the record shapes.
- `EntryLists` (entry_lists.dfy): the pure list transforms and their lemmas.
- `Storage` (storage.dfy): the `Store` class, which holds the medium as a
  `map<Key, Payload>`, and the read-modify-write methods.
- `Visibility` (visibility.dfy): the `NavChrome` class.
- `WebViewReader`, `WebViewSelector`, `QuickActions`, `App` and
  `ThemeContext`: one module per component.

How the model represents the environment:

- The medium's failures are explicit inputs: a `readFails`/`writeFails` flag,
  or an `Io` pair for a read-modify-write call.
- The clock is explicit. A `Tick(t)` event advances it and runs any hide
  callback that is due. Other events happen at the current clock reading. The
  store's timestamps and ids are that reading.
- Timer handles are positive numbers. Handle 0 stands for `null` in
  `hideTimeoutRef`. `NavChrome.Valid()` states that the only pending callback
  is the one `hideTimeoutRef` names, so at most one hide timer is ever
  pending. This is proved to be kept by every event, not built into the types.
- A hide callback that runs after its component was torn down is counted in
  `lateFires` instead of changing the state.

Behaviour the model keeps as the code has it:

- Only a touch on the page re-arms the hide timer. The back, forward, reload
  and favourite buttons do not.
- The store has no operation that clears a list or removes a single history
  entry: `utils/storage.js` defines neither.
- Removing a favourite filters out every entry with that url, not just one.
  On a list with distinct urls this removes exactly one entry
  (`EntryLists.WithoutPresentUrlShrinksByOne`).

## Model

| member | source | states |
|---|---|---|
| `Entries.NewEntry` | utils/storage.js:41-47 | the new entry carries the given site, url and title; its id and timestamp are the same clock reading |
| `Entries.Or` | components/WebViewReader.js:19 | JavaScript `a or b` on strings: `a` when non-empty, else `b` |
| `EntryLists.WithoutUrl` | utils/storage.js:75 | the filtered list holds exactly the entries whose url differs from `u`, and is no longer than the input |
| `EntryLists.WithoutUrlCounts` | utils/storage.js:75 | filtering keeps every entry with another url exactly as many times as it occurred, and none with url `u` |
| `EntryLists.MoveToFront` | utils/storage.js:49 | the new entry is at index 0; no later entry has its url; the members are the new entry plus the old entries with other urls |
| `EntryLists.Take` | utils/storage.js:99 | `slice(0, n)`: the prefix of length `min(n, length of s)` |
| `EntryLists.WithHistoryEntry` | utils/storage.js:97-99 | length between 1 and 50; the new entry first; no later entry shares its url; length is 50 or one more than the filtered list, whichever is smaller; the result is a prefix of the dedup-then-prepend list, so dedup happens before the cap |
| `EntryLists.WithoutUrlIsSubsequence` | utils/storage.js:75 | removal keeps the survivors in their original relative order |
| `EntryLists.WithoutUrlKeepsDistinct` | utils/storage.js:75 | removal keeps pairwise-distinct urls distinct |
| `EntryLists.WithoutAbsentUrl` | utils/storage.js:72-78 | removing a url that is not present returns the list unchanged |
| `EntryLists.WithoutUrlIdempotent` | utils/storage.js:72-78 | a second `removeFromFavorites` of the same url is a no-op |
| `EntryLists.WithoutPresentUrlShrinksByOne` | utils/storage.js:75 | on a list with distinct urls that contains `u`, removal drops exactly one entry |
| `EntryLists.MoveToFrontKeepsDistinct` | utils/storage.js:49 | adding a favourite keeps urls pairwise distinct |
| `EntryLists.MoveToFrontKeepsOthersInOrder` | utils/storage.js:49 | after the new head, every other-url entry is kept, in its original relative order |
| `EntryLists.SameUrlTwice` | utils/storage.js:38-51 | adding the same url twice equals adding only the second entry: one entry for the url, the later title and timestamp |
| `EntryLists.FavoritesNewestFirst` | utils/storage.js:49 | favourites added with distinct urls come back in reverse order of adding |
| `EntryLists.WithHistoryEntryKeepsInvariant` | utils/storage.js:97-99 | saving to history keeps urls distinct and length at most 50 |
| `EntryLists.DedupBeforeCap` | utils/storage.js:97-99 | re-saving a url already in a full history evicts nothing: the length stays the same |
| `EntryLists.HistoryKeepsNewest` | utils/storage.js:98-99 | saving distinct urls in sequence leaves the 50 most recent of them, newest first |
| `EntryLists.SixtySaves` | utils/storage.js:98-99 | after 60 distinct saves, the history has 50 entries, entry `i` is save `59 - i`, and the first ten saves are gone |
| `Storage.KeyNamesDistinct` | utils/storage.js:3-7 | the stored key names are pairwise distinct |
| `Storage.LookupIn` | utils/storage.js:28 | `getItem` fails exactly when the read fails; finds a payload exactly when the key is stored, and it is the stored one |
| `Storage.Stored` | utils/storage.js:18 | a successful write sets exactly its own key; every other key is untouched; a failed write changes nothing |
| `Storage.ReadAfterWrite` | utils/storage.js:18-28 | a key read back after a successful write gives the written payload; every other key reads as before |
| `Storage.VisitOf` | utils/storage.js:29-32 | a record exactly when the read found a visit payload, and it is that record; otherwise null |
| `Storage.EntriesOf` | utils/storage.js:62-66 | the stored list when the read found one; otherwise `[]` |
| `Storage.AfterVisit` | components/WebViewReader.js:76-77 | `saveLastVisited` then `saveToHistory`: favourites and theme untouched; on success last visited is `{site, url, now}` and history is the dedup-then-cap list read before the call, which the first write does not affect; a failed write leaves its key as it was |
| `Storage.VisitIsRecorded` | components/WebViewReader.js:76-77 | after a successful visit, `getLastVisited` returns `{site, url, timestamp}`, the history starts with the new entry with no other entry for its url, and favourites are untouched |
| `Storage.VisitKeepsInvariant` | components/WebViewReader.js:26-29 | recording a visit, on mount or on navigation (the same two calls at lines 76-77), keeps distinct urls and the 50-entry bound, whichever calls fail |
| `Storage.Store.GetItem` | utils/storage.js:28 | returns what the medium holds under the key, or a read failure |
| `Storage.Store.SetItem` | utils/storage.js:18 | reports success exactly when the write does not fail, and updates the medium as `Stored` says |
| `Storage.Store.SaveLastVisited` | utils/storage.js:11-22 | writes only the `lastVisited` key, with `{site, url, timestamp}`; a failed write changes nothing and is not propagated |
| `Storage.Store.GetLastVisited` | utils/storage.js:26-34 | returns the stored record, or none when the key is absent, unreadable, or the read fails |
| `Storage.Store.GetFavorites` | utils/storage.js:60-68 | returns the stored list, or `[]` when the key is absent, unreadable, or the read fails |
| `Storage.Store.GetHistory` | utils/storage.js:110-117 | returns the stored list, or `[]` when the key is absent, unreadable, or the read fails |
| `Storage.Store.AddToFavorites` | utils/storage.js:38-56 | stores and returns the read list with the new entry moved to the front; a failed read acts as `[]`; a failed write stores nothing and returns `[]`; the store invariant is kept |
| `Storage.Store.RemoveFromFavorites` | utils/storage.js:72-82 | stores and returns the read list without the url; the result never contains the url; a failed write returns `[]`; the invariant is kept |
| `Storage.Store.SaveToHistory` | utils/storage.js:86-107 | stores and returns the dedup-then-cap list; a failed read overwrites the history with the new entry alone; a failed write returns `[]`; the invariant is kept |
| `Visibility.NavChrome.Pending` | components/WebViewReader.js:32-39 | at most one hide callback is pending: none, or exactly the one `hideTimeoutRef` names, due in the future |
| `Visibility.NavChrome.constructor` | components/WebViewReader.js:18-23 | controls shown, no timer armed, nothing fired |
| `Visibility.NavChrome.StartHideTimer` | components/WebViewReader.js:32-39 | cancels the existing timer and leaves exactly one pending, due 3000 ms from now; visibility unchanged |
| `Visibility.NavChrome.HideNavigation` | components/WebViewReader.js:41-48 | `showNavigation` becomes false |
| `Visibility.NavChrome.ShowNavigationControls` | components/WebViewReader.js:50-58 | shows the controls and re-arms a 3000 ms timer |
| `Visibility.NavChrome.HandleTouch` | components/WebViewReader.js:103-109 | hidden or shown, a touch leaves the controls shown with a fresh 3000 ms countdown |
| `Visibility.NavChrome.CancelHideTimer` | components/WebViewReader.js:62-66 | no timer remains pending; visibility unchanged |
| `Visibility.NavChrome.TearDown` | components/WebViewReader.js:60-67 | the owner is gone; the pending timers and visibility are left as they were |
| `Visibility.NavChrome.Tick` | components/WebViewReader.js:36-38 | a timer due by `t` runs: it hides the controls, or counts as a late fire if the owner is torn down; otherwise nothing changes |
| `WebViewReader.InitialUrl` | components/WebViewReader.js:19 | the opening URL is `continueFromUrl` when non-empty, else the site's url |
| `WebViewReader.ReaderSession.constructor` | components/WebViewReader.js:15-23 | back/forward disabled, current URL is the opening URL, empty page title, controls shown, no timer |
| `WebViewReader.ReaderSession.Mount` | components/WebViewReader.js:26-29 | records the opening URL as last visited and in history under the site's name, then arms one 3000 ms hide timer; a store that kept distinct urls and the 50-entry history bound still does |
| `WebViewReader.ReaderSession.Unmount` | components/WebViewReader.js:62-66 | the pending timer is cancelled, so no hide runs after teardown |
| `WebViewReader.ReaderSession.Touch` | components/WebViewReader.js:103-109 | the controls are shown and the countdown restarts at 3000 ms |
| `WebViewReader.ReaderSession.Tick` | components/WebViewReader.js:36-42 | a due timer hides the controls of a live session without a late fire, or counts one late fire and leaves visibility alone once torn down; a tick before the deadline changes nothing but the clock |
| `WebViewReader.ReaderSession.HandleNavigationStateChange` | components/WebViewReader.js:69-78 | copies `canGoBack`, `canGoForward` and `url`; the page title becomes `title` or `''`; records last visited and history with title `title` or the site's name; the timer is untouched; a store that kept distinct urls and the 50-entry history bound still does |
| `WebViewReader.ReaderSession.RecordVisit` | components/WebViewReader.js:76-77 | the store holds exactly the result of `saveLastVisited` followed by `saveToHistory` at the current time; a store that kept distinct urls and the 50-entry history bound still does |
| `WebViewReader.ReaderSession.GoBack` | components/WebViewReader.js:80-84 | a back command is sent exactly when `canGoBack` |
| `WebViewReader.ReaderSession.GoForward` | components/WebViewReader.js:86-90 | a forward command is sent exactly when `canGoForward` |
| `WebViewReader.ReaderSession.HandleAddToFavorites` | components/WebViewReader.js:98-101 | favourites the current URL under the page title, or the site's name when it is empty; the hide timer is untouched; a store that kept distinct urls and the 50-entry history bound still does |
| `WebViewReader.DebounceTimeline` | components/WebViewReader.js:32-39 | armed at 0 and touched at 2900, the controls are still shown at 5800 and hidden at 5900 |
| `WebViewReader.NoHideAfterUnmount` | components/WebViewReader.js:60-67 | after mount and unmount, no hide callback runs at any later time |
| `WebViewReader.MangaDexSession` | components/WebViewReader.js:69-78 | open MangaDex, follow a link to a title page, favourite it: last visited is the title page, the history holds both pages newest first with their titles, and the favourites hold the title page alone |
| `WebViewSelector.SelectorView.constructor` | components/WebViewSelector.js:14-20 | back/forward disabled, controls shown, no timer; the page it loads (the `source` uri, line 123) is always the site's url, never a resume URL |
| `WebViewSelector.SelectorView.Mount` | components/WebViewSelector.js:51-52 | arms exactly one 3000 ms hide timer |
| `WebViewSelector.SelectorView.Unmount` | components/WebViewSelector.js:53-57 | as written: the component is torn down and the pending timer is left armed |
| `WebViewSelector.SelectorView.UnmountIntended` | components/WebViewSelector.js:53-57 | as intended: the pending timer is cancelled before teardown |
| `WebViewSelector.SelectorView.Touch` | components/WebViewSelector.js:83-89 | the controls are shown and the countdown restarts at 3000 ms |
| `WebViewSelector.SelectorView.Tick` | components/WebViewSelector.js:27-29 | a due timer hides the controls of a live view without a late fire, or counts one late fire and leaves visibility alone once torn down; a tick before the deadline changes nothing but the clock |
| `WebViewSelector.SelectorView.HandleNavigationStateChange` | components/WebViewSelector.js:60-63 | copies only the two flags; there is no store and no URL tracking |
| `WebViewSelector.SelectorView.GoBack` | components/WebViewSelector.js:65-69 | a back command is sent exactly when `canGoBack` |
| `WebViewSelector.SelectorView.GoForward` | components/WebViewSelector.js:71-75 | a forward command is sent exactly when `canGoForward` |
| `WebViewSelector.HideFiresAfterUnmount` | components/WebViewSelector.js:51-58 | mounted at 0 and unmounted at 1000, the hide callback still runs at 3000, after teardown |
| `WebViewSelector.NoHideAfterIntendedUnmount` | components/WebViewSelector.js:51-58 | with the intended cleanup, no hide callback runs after teardown |
| `QuickActions.ContinueTarget` | components/QuickActions.js:28-35 | nothing without a last visit; otherwise the stored site with `continueFromUrl` set to the last url and every other field unchanged |
| `QuickActions.FavoriteLabel` | components/QuickActions.js:81 | the favourite's title, or its site's name when the title is empty |
| `QuickActions.FavoriteTarget` | components/QuickActions.js:74-77 | the favourite's site with `continueFromUrl` set to the favourite's url and every other field unchanged |
| `QuickActions.RendersNothing` | components/QuickActions.js:37-39 | the panel renders nothing only when there is no last visit and no favourite; with either, it renders |
| `QuickActions.ContinueResumesAtLastVisit` | components/QuickActions.js:30-33 | with `onSiteSelect` taken to be `App.js`'s `handleSiteSelect`, continue reading opens the reader on the last visited url, every other site field kept |
| `QuickActions.FavoriteTapResumesAtFavorite` | components/QuickActions.js:74-77 | with `onSiteSelect` taken to be `App.js`'s `handleSiteSelect`, tapping a favourite opens the reader on its url, on the same site value that picking it on the favorites screen gives |
| `QuickActions.ContinueThroughShell` | components/QuickActions.js:28-35 | with `onSiteSelect` wired to the shell's `handleSiteSelect`, continue reading leaves the shell rendering the reader alone, opening on the last visited url |
| `QuickActions.QuickPanel.constructor` | components/QuickActions.js:13-14 | starts with no last visit and no favourites, so nothing is rendered |
| `QuickActions.QuickPanel.LoadQuickData` | components/QuickActions.js:20-26 | the last visit as `getLastVisited` returns it; the first `min(3, n)` stored favourites in stored order; nothing is rendered exactly when both are empty |
| `QuickActions.QuickPanel.HandleContinueReading` | components/QuickActions.js:28-35 | selects the continue target of the loaded last visit, nothing when there is none |
| `App.Rendered` | App.js:38-55 | at most one screen is rendered; the reader exactly when the screen is `'reader'` and a site is set; home and favorites exactly on their screens |
| `App.ResumeAt` | App.js:31 | a copy of the site whose `continueFromUrl` is the url and whose other fields are unchanged |
| `App.ResumedReaderOpensAtUrl` | App.js:30-33 | a site chosen from the favorites opens the reader on the chosen url, or the site's url when that is empty |
| `App.AppShell.constructor` | App.js:9-10 | screen `'home'`, no current site |
| `App.AppShell.HandleSiteSelect` | App.js:12-15 | the site is set and the reader is shown |
| `App.AppShell.HandleBackToHome` | App.js:17-20 | the site is cleared and home is shown |
| `App.AppShell.HandleShowFavorites` | App.js:22-24 | only the screen changes, to favorites |
| `App.AppShell.HandleCloseFavorites` | App.js:26-28 | only the screen changes, to home |
| `App.AppShell.HandleSelectFromFavorites` | App.js:30-33 | the reader is shown on a copy of the site with `continueFromUrl` set to the url and the other fields unchanged |
| `ThemeContext.ActiveTheme` | utils/themeContext.js:60 | the active palette is the dark one exactly when `isDark` |
| `ThemeContext.ThemeName` | utils/themeContext.js:54 | the stored name is `'dark'` or `'light'`, and `'dark'` exactly when the flag is set |
| `ThemeContext.LoadedIsDark` | utils/themeContext.js:41-44 | a failed read or a missing value keeps the current flag; a stored value sets it to whether that value is `'dark'` |
| `ThemeContext.ThemeNameRoundTrip` | utils/themeContext.js:41-54 | the name stored for a flag loads back as that flag |
| `ThemeContext.UseTheme` | utils/themeContext.js:68-74 | outside a provider it fails with the source's message; inside it returns the context |
| `ThemeContext.ThemeProvider.constructor` | utils/themeContext.js:33 | `isDark` starts false, so the light palette is active |
| `ThemeContext.ThemeProvider.Value` | utils/themeContext.js:60-62 | the context carries the flag and the palette that matches it |
| `ThemeContext.ThemeProvider.LoadTheme` | utils/themeContext.js:39-48 | a stored value sets `isDark` to whether it is `'dark'`; no stored value or a failed read leaves the flag unchanged |
| `ThemeContext.ThemeProvider.ToggleTheme` | utils/themeContext.js:50-58 | flips `isDark` and stores `'dark'` exactly when the new flag is true; a failed write keeps the flip and stores nothing |
| `ThemeContext.ToggleTwice` | utils/themeContext.js:50-54 | two toggles restore the flag, store its own name, and a later load yields the same flag |

## Findings

| source | as written | input that shows it | evidently intended | confidence | as-written member | corrected member |
|---|---|---|---|---|---|---|
| components/WebViewSelector.js:54-55 | the unmount cleanup tests and clears `hideNavigation.current`, a property of a function, which is always undefined, so `clearTimeout` is never called | mount at 0, unmount at 1000: the hide callback still runs at 3000 against the torn-down component (`WebViewSelector.HideFiresAfterUnmount`) | test and clear `hideTimeoutRef.current`, as `components/WebViewReader.js:63-64` does | high (not executed) | `WebViewSelector.SelectorView.Unmount` | `WebViewSelector.SelectorView.UnmountIntended` |

## Left out

- AsyncStorage and JSON: the medium is a map from key to payload. A payload that does not parse and the medium throwing are both read failures. A payload of the wrong shape for its key is treated as unreadable. The source would return it as is and then fail when it is used.
- `Date.now()`: the clock is an input. The source reads it twice for one entry, once for the id and once for the timestamp. The model uses one reading for both. Ids are not claimed unique, since two saves in the same millisecond get the same id.
- Asynchronous interleaving: each store operation is one atomic step. The source's read-modify-write calls are not awaited by the screens and could interleave and lose an update.
- `console.error` logging of swallowed failures.
- The 300 ms opacity animation (`Animated.timing`): only the boolean `showNavigation` is kept.
- The loading overlay (`isLoading`), `reload`, the connection-error alert and its retry/home actions, the "added to favorites" alert, `StatusBar`, styles and all rendering.
- `handleShouldStartLoadWithRequest`: it always allows the load.
- The `onOpenWindow` popup redirect: it injects a script into the embedded browser, which is foreign code.
- `webViewRef.current`: it is taken to be set while the screen is mounted, so `goBack`/`goForward` depend only on their flags.
- React's asynchronous, batched state updates: each handler's updates take effect at once. A setState on an unmounted component is dropped, and the model counts such a call in `lateFires`.
- `components/FavoritesScreen.js`, `components/SiteSelector.js`, `data/sites.js`: presentation and a static catalog. `Site` is an opaque record. The favorites screen imports `clearHistory`, `clearFavorites` and `removeFromHistory`, but `utils/storage.js` defines none of them, so there is no behaviour to model.
- `formatTime`: `utils/tools` is not part of this model.
- Refreshing the quick actions: the panel loads once on mount in the source. A later change to the store is not reflected until a remount.
