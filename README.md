# Offline cache manager and page helpers of the PWA demo

This project models, in Dafny, the parts of the Progressive Web App demo that
carry logic:

- **The service worker** (`public/sw.js`). The install handler opens the
  static store `pwa-cache-v1` and pre-caches a fixed manifest of nine URLs
  with `cache.addAll`, all or nothing. The fetch handler sends every request
  whose path starts with `/api/` through stale-while-revalidate on the store
  `api-cache-v1`, and every other request through cache-first over all stores.
  The host's Cache Storage is the class `CacheApi.CacheStorage`. It keeps the
  store names in creation order, the stores themselves (maps from URL to
  response), and a trace of every cache and network operation issued. The
  handlers are methods that change that object. The network's answer to each
  fetch is an input, either a response or a network error.
- **The bills page helpers** (`app/bills/page.tsx`). `formatStage` turns a
  stage code such as `SECOND_READING` into `Second Reading`. The
  `filteredBills` filter keeps the bills whose title, description or some
  sponsor contains the search term, ignoring case.
- **The todo page's writes** (`app/todos/page.tsx`). `addTodo`, `deleteTodo`,
  `toggleDone`, `deleteCompleted` and `toggleAll` each build a list of
  database operations sent as one transaction. `Todos.Apply` gives the effect
  of that list on the todo list. The remaining-todos count and the
  online-user count are functions of the data.

Modules: `Wrappers` (an `Option` type), `Text` (the JavaScript string
built-ins used: `startsWith`, `includes`, `toLowerCase`, `toUpperCase`),
`CacheApi` (the host Cache Storage), `ServiceWorker`, `Bills` and `Todos`.

Behaviour of the code that the model follows:

- Revalidation writes back only a response whose status is exactly 200
  (`sw.js:31`), not any 2xx response. Other 2xx responses such as 201 or 204
  are returned but not stored.
- The cache-first branch uses `caches.match`. It searches every store in
  creation order, the API store included, not only the static one.
- `addAll` rejects when any fetch fails with a network error, returns a
  status outside 200–299, returns 206, or when a URL repeats. The store that
  `caches.open` created stays, empty or as it was.
- `cache.match` and `cache.put` only handle GET requests. A non-GET API
  request is never answered from the cache. Its write-back rejects, and
  nothing awaits that rejection, so the network response is still returned.
- The stale-while-revalidate answer is the cached entry read *before* the
  write-back.

## Model

| member | source | states |
|---|---|---|
| ServiceWorker.ManifestIsDistinct | public/sw.js:3-13 | The nine pre-cached URLs are pairwise distinct, so `addAll` never rejects them for repeating. |
| ServiceWorker.Install | public/sw.js:15-19 | Install opens the static store and runs `addAll` on the manifest. It succeeds exactly when every fetch is accepted. It then writes the whole batch, otherwise nothing. The static store exists afterwards either way, and every other store is unchanged. The trace has one fetch per URL, then one put per URL only on success. |
| ServiceWorker.InstallStoresManifest | public/sw.js:17 | After a successful `addAll`, every manifest URL is in the static store with its own fetched response. Entries for URLs outside the manifest keep their values. |
| ServiceWorker.InstalledManifestIsServedFromCache | public/sw.js:44-49 | For the stores a successful `Install` leaves (stated as its postcondition reads, from the stores before the call), a GET for any manifest URL finds a cached answer in `caches.match`, so cache-first makes no network call. |
| ServiceWorker.InstallThenServe | public/sw.js:15-49 | Running the install handler and then `caches.match` for a manifest URL: whenever the install succeeds, the lookup hits. |
| ServiceWorker.Route | public/sw.js:25 | The strategy chosen from the path: stale-while-revalidate when it starts with `/api/`, cache-first otherwise. What that means character by character is `RouteByPrefix`. |
| ServiceWorker.RouteByPrefix | public/sw.js:25 | Stale-while-revalidate is chosen exactly when the path's first five characters are `/api/`. Cache-first is chosen exactly otherwise. |
| ServiceWorker.BareApiPathIsCacheFirst | public/sw.js:25 | `/api` without the trailing slash is served cache-first. `/api/bills` is served stale-while-revalidate. |
| ServiceWorker.CachedOrNetwork | public/sw.js:36-38 | A cached response is returned when there is one. Otherwise the network response is returned, whatever its status. The request fails exactly when there is no cached response and the network fails. |
| ServiceWorker.Revalidated | public/sw.js:30-33 | The API store gains or overwrites the request's entry exactly when the network answered 200 to a GET. Every other entry, and a prior entry on a non-200 answer, is untouched. |
| ServiceWorker.RefreshedEntryServedNext | public/sw.js:27-38 | After a 200 revalidation, the next API request for the same URL is answered with the refreshed response, whatever the network then does. |
| ServiceWorker.StaleWhileRevalidateBranch | public/sw.js:26-41 | The API branch opens the API store, then looks up, always fetches, and writes back a 200. It answers with the entry found before the write, else the network response, else fails. The trace is lookup, fetch, then put only on 200. |
| ServiceWorker.CacheFirstBranch | public/sw.js:45-52 | Cache-first answers with the first hit over all stores. It changes no store. It fetches exactly on a miss and returns the network's result unchanged (a network error fails). |
| ServiceWorker.HandleFetch | public/sw.js:21-53 | Each request goes through exactly one strategy, chosen by its path. The answer and the whole new state (creation order, stores, trace) are those of that strategy. |
| ServiceWorker.StoredUrlHits | public/sw.js:46 | Once any store holds a GET request's URL, `caches.match` answers it. |
| CacheApi.StoreMatch | public/sw.js:28 | `cache.match` on one store: the stored response for a GET whose URL is a key, and nothing otherwise. `CacheStorage.Match` is proved to return it. |
| CacheApi.MatchAll | public/sw.js:46 | `caches.match`: the stores searched in creation order. Its first-hit meaning is `MatchAllFirstHit`, and the loop `CacheStorage.MatchAnyStore` is proved to compute it. |
| CacheApi.MatchAllFirstHit | public/sw.js:46 | `caches.match` answers exactly when some store has the request. It then answers with the response of the first such store in creation order. |
| CacheApi.PutAll | public/sw.js:17 | The store after `addAll`'s batch of puts, in list order. What it holds is `PutAllStores`, and the loop `CacheStorage.CommitBatch` is proved to compute it. |
| CacheApi.PutAllStores | public/sw.js:17 | An accepted `addAll` batch with distinct URLs stores each URL with its own response. It adds no other key and leaves other entries unchanged. |
| CacheApi.PrefixKeepsBatch | public/sw.js:17 | Dropping the last URL of an accepted batch with distinct URLs leaves an accepted batch with distinct URLs, and the last URL is not among the others. |
| CacheApi.PutAllLast | public/sw.js:17 | The last put of a batch adds its URL on top of the earlier puts. The keys, the per-URL values and the untouched entries carry over. |
| CacheApi.FetchSteps | public/sw.js:17 | `addAll` issues one fetch per URL, in list order. |
| CacheApi.PutSteps | public/sw.js:17 | `addAll`'s batch issues one put per URL, in list order. |
| CacheApi.CacheStorage.constructor | public/sw.js:15-19 | The worker starts with no stores and an empty trace. |
| CacheApi.CacheStorage.Open | public/sw.js:17 | `caches.open` creates an empty store at the end of the creation order when the name is new. Otherwise it changes nothing. It issues no network call. |
| CacheApi.CacheStorage.Match | public/sw.js:28 | `cache.match` answers exactly when the request is a GET and its URL is in the store. The answer is the stored response. |
| CacheApi.CacheStorage.MatchAnyStore | public/sw.js:46 | The loop over the stores in creation order returns the first hit, as `MatchAll` specifies. |
| CacheApi.CacheStorage.Fetch | public/sw.js:29 | A fetch returns the network's outcome and records one network call. |
| CacheApi.CacheStorage.Put | public/sw.js:32 | `cache.put` stores the response under the request URL exactly when the request is a GET and the status is not 206. Otherwise it stores nothing. |
| CacheApi.CacheStorage.AddAll | public/sw.js:17 | `cache.addAll` succeeds exactly when the URLs are distinct and every fetch is accepted. It then writes the batch, and nothing otherwise. All fetches are issued either way. |
| CacheApi.CacheStorage.FetchEach | public/sw.js:17 | `addAll` fetches every URL in order and reports whether every response is accepted (status 200–299 and not 206). |
| CacheApi.CacheStorage.CommitBatch | public/sw.js:17 | `addAll` commits the accepted batch to the one store, as `PutAll` specifies, one put per URL. |
| Text.StartsWith | public/sw.js:25 | `startsWith`, defined by recursion on both strings. Its meaning as a prefix test is `StartsWithIsPrefix`. |
| Text.StartsWithIsPrefix | public/sw.js:25 | `startsWith(p)` holds exactly when `p` is a prefix. |
| Text.Includes | app/bills/page.tsx:72-75 | `includes`, defined by recursion on the string. Its meaning as an occurrence test is `IncludesIffOccurs`. |
| Text.IncludesIffOccurs | app/bills/page.tsx:72-75 | `includes(p)` holds exactly when `p` occurs at some position. |
| Text.IncludesEmpty | app/bills/page.tsx:72 | Every string includes the empty string. |
| Text.ToLower | app/bills/page.tsx:42 | `toLowerCase` keeps the length and lower-cases each character. |
| Text.ToUpper | app/bills/page.tsx:43 | `toUpperCase` keeps the length and upper-cases each character. |
| Text.LowerOfUpper | app/bills/page.tsx:72-75 | Lower-casing forgets the case the string was in. Lower-casing twice is lower-casing once. |
| Bills.ReplaceUnderscores | app/bills/page.tsx:41 | `replace(/_/g, ' ')` keeps the length and turns every `_`, and only `_`, into a space. |
| Bills.CapitalizeFrom | app/bills/page.tsx:43 | The scan of `replace(/\b\w/g, …)` upper-cases exactly the characters that start a word. |
| Bills.CapitalizeWords | app/bills/page.tsx:43 | `replace(/\b\w/g, l => l.toUpperCase())` upper-cases exactly the word starts and changes nothing else. |
| Bills.FormatStage | app/bills/page.tsx:39-44 | `formatStage`: replace the underscores, lower-case, then capitalise each word. Its meaning is stated by `FormatStageAt`, `FormatStageShape`, `FormatStageIdempotent` and `FormatStageExample`. |
| Bills.WordCharCaseless | app/bills/page.tsx:42-43 | Changing case does not change whether a character is a word character. |
| Bills.FormatStageAt | app/bills/page.tsx:39-44 | `formatStage` maps each position of the code to the same position of the result. An underscore becomes a space, and a character is upper-case where it starts a word of the result and lower-case elsewhere. |
| Bills.FormattedShape | app/bills/page.tsx:39-44 | A formatted stage holds no `_`, and each of its letters is upper-case exactly when it starts a word. |
| Bills.FormatStageShape | app/bills/page.tsx:39-44 | `formatStage` keeps the length and leaves no `_`. A letter of the result is upper-case exactly when it starts a word. |
| Bills.FormattedIsFixed | app/bills/page.tsx:39-44 | Formatting a formatted stage gives it back. |
| Bills.FormatStageIdempotent | app/bills/page.tsx:39-44 | `formatStage(formatStage(s)) == formatStage(s)`. |
| Bills.FormatsSecondReading | app/bills/page.tsx:39-44 | The only formatting of `SECOND_READING` is `Second Reading`. |
| Bills.FormatStageExample | app/bills/page.tsx:39-44 | `formatStage("SECOND_READING") == "Second Reading"`. |
| Bills.SomeSponsorIncludes | app/bills/page.tsx:74-76 | `sponsors.some(…)` by recursion over the sponsors. Its meaning is `SomeSponsorIncludesIff`. |
| Bills.SomeSponsorIncludesIff | app/bills/page.tsx:74-76 | `sponsors.some(…)` holds exactly when some sponsor, lower-cased, includes the term. |
| Bills.MatchesSearch | app/bills/page.tsx:71-76 | The predicate the filter applies to a bill. Its meaning is `MatchesSearchIff`. |
| Bills.MatchesSearchIff | app/bills/page.tsx:71-76 | A bill matches exactly when the lower-cased term occurs in its lower-cased title, its lower-cased description or some lower-cased sponsor. |
| Bills.FilterBills | app/bills/page.tsx:70-77 | The filter never returns more bills than it is given. |
| Bills.FilterKeepsExactlyMatches | app/bills/page.tsx:70-77 | Every matching bill is kept as many times as it occurs, and no other bill is kept. |
| Sequences.EmbedsInTail | app/bills/page.tsx:70-77 | A subsequence of the tail is a subsequence of the whole list, with or without the head in front. |
| Sequences.Shifted | app/bills/page.tsx:70-77 | Each position is moved one place on. |
| Sequences.ShiftedMembers | app/todos/page.tsx:80 | A position is in the shifted list exactly when the one before it is in the original. |
| Bills.FilterIsSubsequence | app/bills/page.tsx:70-77 | The kept bills stand at strictly increasing positions of the input, so their order is the input's. |
| Bills.EmptyTermKeepsAll | app/bills/page.tsx:70-77 | An empty search term keeps every bill. |
| Bills.FilterDependsOnLowerCasedTerm | app/bills/page.tsx:70-77 | Two terms that lower-case alike select the same bills. |
| Bills.FilterIgnoresTermCase | app/bills/page.tsx:70-77 | The upper-case and lower-case forms of a term select the same bills as the term. |
| Todos.ApplyOp | app/todos/page.tsx:61-77 | One database operation on the list: an update patches the todos with its id, or appends a new todo when there is none; a delete removes the todos with its id. |
| Todos.Apply | app/todos/page.tsx:79-89 | A transaction: its operations applied in order. |
| Todos.AddTodo | app/todos/page.tsx:61-68 | `addTodo`: one update of a fresh id with the text, `done` false and the time. Its effect is `AddTodoAppends`. |
| Todos.DeleteTodo | app/todos/page.tsx:71-73 | `deleteTodo`: one delete of the todo's id. Its effect is `DeleteTodoRemovesOne`. |
| Todos.ToggleDone | app/todos/page.tsx:75-77 | `toggleDone`: one update setting `done` to its negation. Its effect is `ToggleDoneFlipsOne`. |
| Todos.DeleteCompleted | app/todos/page.tsx:79-83 | `deleteCompleted`: one delete per completed todo, in list order. Its effect is `DeleteCompletedKeepsUndone`. |
| Todos.AllDone | app/todos/page.tsx:86 | `todos.every(todo => todo.done)`, true of the empty list. |
| Todos.ToggleAll | app/todos/page.tsx:85-89 | `toggleAll`: one update per todo setting `done` to "not all are done". Its effect is `ToggleAllSetsEvery`. |
| Todos.Remaining | app/todos/page.tsx:184 | The remaining count, the length of the undone filter. `UndoneAtUndonePositions` shows it counts exactly the undone positions. |
| Todos.PatchId | app/todos/page.tsx:76 | An update on an existing id patches exactly the todos with that id and keeps the others. |
| Todos.AddTodoAppends | app/todos/page.tsx:61-68 | With a fresh id, adding appends exactly one todo with the text, not done, stamped with the given time. |
| Todos.ToggleDoneFlipsOne | app/todos/page.tsx:75-77 | With unique ids, toggling flips `done` on that todo and changes nothing else. |
| Todos.RemoveAbsentId | app/todos/page.tsx:72 | Deleting an id no todo has leaves the list unchanged. |
| Todos.DeleteTodoRemovesOne | app/todos/page.tsx:71-73 | With unique ids, deleting removes exactly that todo and keeps the others in order. |
| Todos.Completed | app/todos/page.tsx:80 | The completed todos are exactly the listed todos that are done, and never more than the list. |
| Todos.CompletedCounts | app/todos/page.tsx:80 | The filter keeps each done todo as many times as it occurs, and no other todo. |
| Todos.CompletedAtDonePositions | app/todos/page.tsx:80 | The completed todos are the todos at exactly the done positions, in list order. |
| Todos.Undone | app/todos/page.tsx:184 | The remaining todos are exactly the listed todos that are not done, and never more than the list. |
| Todos.UndoneCounts | app/todos/page.tsx:184 | The filter keeps each undone todo as many times as it occurs, and no other todo. |
| Todos.UndoneAtUndonePositions | app/todos/page.tsx:184 | The remaining todos are the todos at exactly the undone positions, in list order, so the remaining count is the number of undone positions. |
| Todos.DeleteOps | app/todos/page.tsx:81 | One delete per completed todo, in list order. |
| Todos.RemoveIdAfterIds | app/todos/page.tsx:79-83 | Deleting one more id after a set of ids is deleting the enlarged set. |
| Todos.RemoveIdDistributes | app/todos/page.tsx:79-83 | Deleting an id from a concatenation deletes it from each part. |
| Todos.IdSet | app/todos/page.tsx:79-83 | The id set holds exactly the ids of the listed todos. |
| Todos.ApplyDeleteOps | app/todos/page.tsx:79-83 | A transaction of deletes removes exactly the todos whose ids it names, keeping the others in order. |
| Todos.RemoveNoIds | app/todos/page.tsx:79-83 | Deleting no ids changes nothing. |
| Todos.RemoveIdsOfDone | app/todos/page.tsx:79-83 | When the deleted ids are exactly those of the done todos, what is left is the undone todos. |
| Todos.CompletedIdsAreDone | app/todos/page.tsx:80-81 | With unique ids, a todo's id is among the completed ids exactly when the todo is done. |
| Todos.DeleteCompletedKeepsUndone | app/todos/page.tsx:79-83 | With unique ids, `deleteCompleted` leaves exactly the undone todos, in order. Nothing left is done, and the remaining count is unchanged and equals the list's length. |
| Todos.UndoneOfUndone | app/todos/page.tsx:184 | Filtering the remaining todos again changes nothing. |
| Todos.RemainingPlusCompleted | app/todos/page.tsx:184 | The remaining count plus the number of deletes `deleteCompleted` issues is the number of todos. |
| Todos.SetDoneOps | app/todos/page.tsx:88 | One `done := v` update per todo, in list order. |
| Todos.PatchDoneSetsOne | app/todos/page.tsx:88 | One `done := v` update sets `done` on exactly the todos with that id. |
| Todos.DoneSetOnCompose | app/todos/page.tsx:85-89 | Setting `done` for one set of ids and then another is setting it for their union. |
| Todos.ApplySetDoneOps | app/todos/page.tsx:85-89 | A transaction of `done := v` updates on present todos sets `done` to `v` on exactly the todos it names and changes nothing else. |
| Todos.ToggleAllSetsEvery | app/todos/page.tsx:85-89 | `toggleAll` sets every todo's `done` to "not all are done". When all are done (or there are none), all become undone. Otherwise all become done. Nothing else changes. |
| Todos.NumUsers | app/todos/page.tsx:33 | The online count is at least one: this client plus one per peer. |

## Left out

- `formatDate` and `fetchBills` (`app/bills/page.tsx`) call the host's date formatting and the network. Neither is modelled.
- Rendering, React state, the click handlers and TanStack Query caching are left out. They hold no logic beyond calling the modelled helpers.
- The hosted database (InstantDB) is not modelled: its sync, presence, query results and the order in which it returns todos. `Todos.Apply` is the model's reading of a transaction. An update on an existing id patches that todo, an update on a new id creates one, and a delete removes it.
- Todos.Created: the defaults (`""`, `false`, `0`) for attributes an update on a new id leaves unset are a modelling choice. The page always sets all three when it creates a todo.
- The fresh id from `id()`, the time from `Date.now()` and the peers of the room are inputs (`newId`, `now`, `peers`).
- Text.ToLower: case mapping covers the ASCII letters only. Unicode case mapping, including characters whose case forms differ in length, is not modelled.
- Text.ToUpper: ASCII letters only, for the same reason.
- Bills.IsWordChar: `\w` is the ASCII class `[A-Za-z0-9_]`, as in JavaScript regular expressions without the `u` flag.
- Bills.Bill: only the fields the helpers read are modelled (`id`, `title`, `description`, `currentStage`, `sponsors`). Categories, cosponsors, ministers, dates, stage history and the other fields are omitted.
- Bills.FilterBills: its own contract only bounds the length. What it keeps is stated by `FilterKeepsExactlyMatches`, `FilterIsSubsequence` and `MatchesSearchIff`.
- Concurrency of the service worker is left out. Steps run in sequence: lookup, fetch, write-back. So the race between the answer and the background write-back is not modelled, and neither are several fetch events in flight at once.
- `respondWith`, `waitUntil` and promise rejection are folded into results. A failed install is `installed == false`. A failed request is `Answer.Fail`.
- Response bodies and `clone()`, headers, `Vary` and the options of `match` are not modelled. A stored response is a status and a body string.
- The request URL is split into the cache key `url` and the `pathname` the router reads. `new URL(…)` parsing is not modelled.
- There is no activate handler in the worker, so no old-store deletion is modelled.
- `app/layout.tsx`, `next.config.ts` and `app/api/bills/route.ts` are not part of this model. They are page layout, build configuration and mock data.
