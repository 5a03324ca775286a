# History Lasso, modelled in Dafny

History Lasso is a Chrome extension page that lists the browser history and lets the user
select and delete records in bulk. This project models its logic in Dafny 4 and proves
properties of that model. The project covers five scripts:

- **js/data.js.** The `HistoryLoader` cursor paginator walks the history store backwards in time.
  - Module `Data`: the `LoaderState` step functions `Begin` and `Complete`, a `Session` of loader events, and the class `HistoryLoader`.
  - A store call is split in two. Starting the fetch is `Begin` / `LoadNextBatch`. The callback is `Complete` / `OnResults`, which is handed the store's answer.
- **js/app.js.** The list page.
  - Module `App`: the class `Feed`, holding the rows under the list container, the date-header tracker, the selection, the lasso flag and group mode.
  - The date labels and headers are the pure functions `LabelFor` and `LayoutRows`, which `renderRows` follows record by record.
- **js/render.js.** The card page's render engine.
  - Module `Render`: the class `CardView`, holding the cache and the grouping mode.
  - The pure grid layout: `Layout`, `DomainGrid` and `CardRun`.
- **js/lasso.js.** The drag-selection engine.
  - Module `Lasso`: the class `LassoEngine`, with the Selecto instances it created, and the select, mark and clear operations on the page.
- **js/actions.js.** The bulk delete of the card page, in module `Actions`.

Shared modules:

- **`History`:** the history record, substring search, ASCII lower case, and the domain key.
- **`Grouping`:** the domain grouping used by both pages.
- **`Sorting`:** the stable sort into descending key order that `Array.prototype.sort` performs with a `b - a` comparator.
- **`Selection`:** the selection set and action-bar rules.
- **`Page`:** the card page's document (the grid's nodes, the selected cards, the action bar and the delete button's label).
- **`Seqs`:** order-preserving filtering.
- **`Wrappers`:** `Option`.

How the browser is represented:

- DOM elements are numbers, handed out in creation order.
- The records the history store returns, `confirm` answers, delete outcomes and whether Selecto is loaded are all parameters.
- A calendar day is an integer. `dayOf` maps a timestamp to the local day.
- A URL that does not parse is a record whose `host` is `None`.
- An empty string stands for a missing title or URL. A card or a list row stores a missing URL in its `data-url` as the text "undefined", as the browser does. The card page's promise-style delete refuses that text. A group's "Delete All" passes the missing URL itself, and that request throws.

Where the behaviour described for the project and the code differ, the model follows the code:

- **No generation token.** `reset` clears `isLoading` without any generation token, so the answer to a fetch issued before a search reset is still applied. It rewrites the cursor, and its rows are rendered. The lemma `Data.StaleAnswerIsApplied` exhibits this.
- **Group mode uses the same loader.** Its fetch is refused while a list fetch is in flight or after the list is exhausted. In that case the group view shows nothing. Its 5000-record fetch also moves the shared cursor.
- **Search and the action bar.**
  - A settled search on the list page clears the rows without refreshing the action bar.
  - On the card page, a re-render drops the selected cards without refreshing the bar.
- **Group headers stay.** On the card page, a delete leaves the group headers, and their counts, as they were.

## Model

| member | source | states |
|---|---|---|
| Sorting.SortDescSorted | js/data.js:55 | the sort leaves records in non-increasing `lastVisitTime` order |
| Sorting.SortDescPermutation | js/data.js:55 | the sorted batch is a permutation of the store's results |
| Sorting.SortDescStable | js/render.js:86 | records with equal keys keep their input order (the sort is stable) |
| History.IndexOf | js/render.js:37-38 | returns the first position where the pattern occurs, or `None` exactly when it occurs nowhere |
| History.ContainsIffOccurs | js/render.js:37-38 | `includes` holds exactly when the pattern occurs at some position |
| History.ContainsEmpty | js/render.js:37-38 | every string includes the empty string |
| History.LowerChar | js/render.js:35 | upper-case ASCII letters map to their lower-case forms; every other character is unchanged |
| History.Lower | js/render.js:35 | lower-casing keeps the length and lower-cases each character |
| History.DataUrl | js/render.js:116 | an element's `data-url` (a card's, or a list row's at js/app.js:104) is never empty, and it is the record's URL whenever the record has one |
| History.RemoveFirstRoundTrip | js/render.js:78 | `replace('www.', '')` removes the first occurrence only: splicing the pattern back at that index restores the hostname, and a hostname without it is unchanged |
| History.WwwRemovedWherever | js/render.js:75-79 | "www." is removed wherever it first appears in the hostname, not only at the front: `p + "www." + q` becomes `p + q` when no "www." starts inside `p` |
| History.WwwInTheMiddle | js/render.js:78 | the hostname "news.www.example.com" is grouped under "news.example.com" |
| Grouping.DomainOrder | js/render.js:81 | the group keys are distinct and include the domain of every item |
| Grouping.DomainOrderHasItems | js/render.js:81 | every key's group is non-empty |
| Grouping.ItemsOfMember | js/render.js:81-82 | a domain's group holds exactly the items with that domain |
| Grouping.GroupItems | js/render.js:71-83 | the loop builds the keys in first-seen order, and each key's group equals the items with that domain |
| Grouping.GroupsPartition | js/render.js:74-83 | each item lies in exactly one group, the one for its own domain, and that domain is a key |
| Grouping.GroupKeepsOrder | js/render.js:81-82 | within a group, items keep their input order |
| Grouping.GroupsCoverItems | js/render.js:71-83 | concatenating the groups gives back the input, as a multiset |
| Grouping.DomainsRanked | js/render.js:86 | the sorted domains are a permutation of the keys, in non-increasing group size, with ties kept in first-seen order, and their groups together cover every item |
| Data.Initial | js/data.js:7-13 | a new loader has its cursor at "now", is neither finished nor busy, and has an empty query |
| Data.ResetState | js/data.js:18-24 | reset sets the cursor to now, clears both flags, and sets the query, defaulting to "" |
| Data.Begin | js/data.js:31-43 | a finished or busy loader issues no query and changes nothing; otherwise it becomes busy and queries text = query, endTime = cursor, startTime = 0, maxResults = pageSize |
| Data.MinVisitTime | js/data.js:58 | the least visit time of a non-empty batch, attained by one of its records |
| Data.CompleteReleases | js/data.js:45 | completing a fetch always clears the busy flag, whatever the answer, and keeps the query |
| Data.CompleteEmpty | js/data.js:47-50 | a missing or empty answer marks the loader finished, returns nothing and leaves the cursor where it was |
| Data.SortedLastIsOldest | js/data.js:58-61 | after the sort, the last record is an oldest one |
| Data.CompleteBatch | js/data.js:53-66 | a non-empty answer comes back sorted newest first and as a stable permutation; the cursor becomes the oldest time minus 1, strictly below every returned record; the loader is finished exactly when it already was or the batch is short |
| Data.CursorRecedes | js/data.js:60-61 | if the store honours the exclusive `endTime`, the cursor strictly decreases |
| Data.OneQueryInFlight | js/data.js:32 | while a query is pending, a further request changes nothing |
| Data.StepConsistent | js/data.js:31-70 | every event keeps "busy exactly when a query is pending" |
| Data.CursorNeverRises | js/data.js:39-61 | over any run of requests and store answers that honour `endTime`, the cursor never rises |
| Data.FinishedIsQuiet | js/data.js:32 | a finished loader with nothing pending ignores every further event |
| Data.StaleAnswerIsApplied | js/data.js:44-66 | the answer to a query issued before a reset is still applied to the reset loader: it rewrites the cursor and returns its records |
| Data.HistoryLoader.constructor | js/data.js:7-13 | the new loader's state is `Initial(now)` |
| Data.HistoryLoader.Reset | js/data.js:18-24 | the new state is `ResetState` of the old |
| Data.HistoryLoader.LoadNextBatch | js/data.js:31-43 | the new state and the query sent are `Begin` of the old state |
| Data.HistoryLoader.OnResults | js/data.js:44-70 | the new state and the batch returned are `Complete` of the old state and the answer |
| Data.HistoryLoader.DeleteItems | js/data.js:77-83 | no call for a missing or empty list; otherwise exactly one delete per URL, in order |
| App.LabelFor | js/app.js:64-87 | the label is Today exactly when the day is today, Yesterday exactly when it is the day before, and the weekday form otherwise; it carries the record's day |
| App.BatchesCompose | js/app.js:89-98 | rendering batch A and then batch B, with the tracker carried over, gives the same entries and final tracker as rendering A followed by B at once |
| App.HeadersChange | js/app.js:89-98 | no two adjacent headers are equal; the first differs from the incoming tracker; the tracker ends at the last header emitted, or is unchanged when none is emitted |
| App.OneRowPerRecord | js/app.js:100-136 | each record yields exactly one row, in input order |
| App.RowsNumbered | js/app.js:101-136 | the rows are consecutive new elements, one per record |
| App.FirstRecordHeaded | js/app.js:155-164 | after a reset of the tracker, the first record always gets a header, with its own label |
| App.HeaderDaysDecrease | js/app.js:89-98 | for records whose days do not increase, the header days strictly decrease and lie below the tracker's day |
| App.SortedStreamHeadersDistinct | js/app.js:89-98 | over a newest-first stream, with a monotone `dayOf`, no header repeats anywhere |
| App.RowDomain | js/app.js:107-108 | an unparsable URL shows ""; a parsable one shows its grouping key; the hostname is shown unchanged exactly when it holds no "www.", a leading "www." is dropped, and otherwise the text is exactly four characters shorter |
| App.UrlsOf | js/app.js:347 | the group's delete list is the URLs of its members, in order |
| App.MissingUrlKeepsGroup | js/app.js:347 | a group's delete list holds a missing URL exactly when one of its records has none |
| App.GroupRowsListed | js/app.js:324-326 | the group view lists, in ranked order, exactly the domains with at least two items |
| App.GroupRowsCarryUrls | js/app.js:344-347 | every group row deletes exactly the URLs of its domain's items |
| App.GroupRowsNumbered | js/app.js:324-353 | the group rows are consecutive new elements |
| App.GroupViewRanked | js/app.js:321-326 | the listed domains appear in non-increasing group size, and a domain is listed exactly when it has at least two items |
| App.SelectedUrlsCount | js/app.js:251-252 | the delete list has one entry per selected row |
| App.SelectedUrlsNonEmpty | js/app.js:252 | a selected row never contributes the empty string: a row without a URL contributes the text "undefined" |
| App.RemoveEntry | js/app.js:348 | removing a group row keeps the others in order and drops exactly its element |
| App.Feed.constructor | js/app.js:10-17 | the page starts with no rows, a null tracker, no selection, a hidden bar, lasso off and list mode |
| App.Feed.Init | js/app.js:30-35 | the tracker is reset and the first list batch requested |
| App.Feed.LoadNextBatch | js/app.js:55-56 | a list fetch is `Begin` with page size 100, the loader's default |
| App.Feed.OnListBatch | js/app.js:56-57 | the loader completes, and the batch it returns is rendered |
| App.Feed.RenderRows | js/app.js:60-141 | the layout of the batch from the current tracker is appended before the sentinel, the tracker moves on, and existing rows are untouched |
| App.Feed.BuildFragment | js/app.js:63-137 | the loop builds exactly the layout `LayoutRows` gives for the batch |
| App.Feed.SearchSettled | js/app.js:155-164 | the tracker is null, the list holds only the sentinel, nothing is selected, and the loader is reset with the query and asked for a batch |
| App.Feed.UpdateSelectionState | js/app.js:225-233 | the bar is refreshed with the number of selected rows |
| App.Feed.ToggleRowSelection | js/app.js:143-146 | the row's selection flips and the bar is refreshed |
| App.Feed.CancelSelection | js/app.js:234-237 | no row remains selected, and the bar is hidden |
| App.Feed.ClickRow | js/app.js:122-134 | a click on the checkbox, or any click with the lasso on, toggles the row; otherwise a plain click navigates and a modified click does nothing |
| App.Feed.ToggleLasso | js/app.js:186-214 | the flag flips; switching off cancels the selection, and switching on leaves it alone |
| App.Feed.OnLassoSelect | js/app.js:203-207 | the selection becomes (old ∪ added) \ removed, and the bar is refreshed |
| App.Feed.MarkAll | js/app.js:204 | the added rows become selected |
| App.Feed.UnmarkAll | js/app.js:205 | the removed rows become unselected |
| App.Feed.DeleteSelectedRows | js/app.js:250-260 | one `data-url` slot per selected element is gathered (a row's `DataUrl`, nothing for a group row); with rows selected and the prompt confirmed, one delete per URL is issued, and the page reloads exactly when every selected element carries a URL (a group row has none, and its delete is refused); otherwise nothing happens |
| App.Feed.EnterGroupMode | js/app.js:303-311 | in group mode a click only reloads; otherwise group mode starts, the list is cleared and 5000 records are requested from the shared loader |
| App.Feed.FinishGroupMode | js/app.js:311-355 | the loader completes, the container is cleared (the scroll sentinel is detached), and the rows become the group rows of the batch's domains in ranked order |
| App.Feed.ShowGroups | js/app.js:324-353 | the loop appends exactly `GroupRows` of the ranked domains |
| App.Feed.DeleteGroup | js/app.js:344-350 | when confirmed, a delete is issued for each of the group's URLs as they are, and exactly its row is removed when every record has a URL; a record without one makes the request throw, so the row stays; when declined, nothing changes |
| Selection.SelectEffect | js/lasso.js:35-37 | a removed element ends unselected, an element only added ends selected, and an element in neither list keeps its state |
| Selection.Toggled | js/app.js:144 | toggling flips the element's membership and no other element's |
| Selection.ToggleTwice | js/app.js:144 | toggling twice restores the selection |
| Selection.Refresh | js/lasso.js:47-54 | the bar is visible exactly when the count is positive and then shows that count; a hidden bar keeps its old text |
| Selection.RefreshEmptyIdempotent | js/lasso.js:57-63 | clearing twice leaves the bar as clearing once |
| Page.SelectedCardsCover | js/lasso.js:47-49 | every selected element is a card the query finds, and the count is positive exactly when something is selected |
| Page.Dom.UpdateUI | js/lasso.js:42-55 | the bar is refreshed with the number of selected cards in the grid, which in a valid page is the number of selected elements |
| Page.SelectedCardsCount | js/lasso.js:47 | with card numbers increasing in document order, the query finds as many cards as there are selected numbers among the grid's cards |
| Page.SelectedCount | js/lasso.js:47-51 | in a valid page the query `.history-card.selected` finds exactly one card per selected element |
| Page.FilterKeepsNumbering | js/actions.js:60 | removing cards keeps the remaining cards' numbers increasing and introduces no number |
| Lasso.ReinitOneLive | js/lasso.js:8-32 | re-initialising destroys the old instance first, so at most one instance is live, and the new one is live only when Selecto is loaded |
| Lasso.OneLiveCount | js/lasso.js:9-19 | the number of live instances is at most one, and is one exactly when the current instance is live |
| Lasso.LassoEngine.InitLasso | js/lasso.js:8-40 | the instances change as `Reinit` says |
| Lasso.LassoEngine.OnSelect | js/lasso.js:35-39 | the selection becomes (old ∪ added) \ removed, and the bar is refreshed with the new count, which equals the size of the new selection |
| Lasso.LassoEngine.MarkAll | js/lasso.js:36 | the added cards become selected |
| Lasso.LassoEngine.UnmarkAll | js/lasso.js:37 | the removed cards become unselected |
| Lasso.LassoEngine.ClearSelection | js/lasso.js:57-64 | no card remains selected, and the bar is hidden |
| Render.Toggle | js/render.js:28 | the mode always changes |
| Render.ToggleTwice | js/render.js:27-29 | toggling twice restores the mode |
| Render.SearchKeepsMatches | js/render.js:34-39 | the filter keeps exactly the records whose title or URL contains the query, ignoring case, each as often as in the cache, in cache order |
| Render.EmptyQueryKeepsNamed | js/render.js:36-39 | the empty query keeps exactly the records with a title or a URL |
| Render.CardRunItems | js/render.js:103-106 | a run of cards shows its records in order, and no headers |
| Render.DomainGridHeaders | js/render.js:89-94 | the domain grid has one header per domain, in the given order |
| Render.DomainGridCards | js/render.js:96-99 | the grid's cards are the domains' groups, one after another |
| Render.DomainGridSizes | js/render.js:93 | each header's count is the size of its domain's group |
| Render.FlatLayout | js/render.js:103-106 | flat mode shows one card per item, in input order, and no headers |
| Render.DomainLayout | js/render.js:70-100 | domain mode shows the domains ranked by non-increasing group size, each header counting its group, and the groups' cards, which together are the items |
| Render.Cards | js/render.js:103-106 | the loop builds exactly the flat run of cards |
| Render.BuildGrid | js/render.js:66-110 | the fragment is the layout of the items in the mode, with the cards' records as that layout requires |
| Render.AppendDomains | js/render.js:89-100 | the loop builds exactly the domain grid |
| Render.CardView.RenderItems | js/render.js:66-110 | the grid is replaced by the layout of the items, and no card is selected |
| Render.CardView.LoadHistory | js/render.js:44-60 | on success the cache holds the records and is rendered by domain, with no card selected; on failure without the history API, the notice is shown; otherwise nothing changes |
| Render.CardView.Init | js/render.js:11-22 | the history is loaded with every outcome of `loadHistory` (rendered by domain with no card selected, the notice, or no change), then the lasso is re-initialised |
| Render.CardView.ToggleGrouping | js/render.js:27-32 | the mode flips, the cache is rendered in the new mode, and the lasso is re-initialised |
| Render.CardView.HandleSearch | js/render.js:34-42 | the filtered cache is rendered in the current mode, and the lasso is re-initialised |
| Render.CardView.ClickCard | js/render.js:141-148 | a click navigates to the card's URL exactly when the card is unselected and neither Ctrl nor Shift is held |
| Render.CardRunNumbered | js/render.js:103-106 | a run of cards built from `n` records has `n` cards numbered consecutively |
| Render.DomainGridNumbered | js/render.js:89-100 | the domain grid holds one card per grouped record, numbered consecutively in document order |
| Render.LayoutNumbered | js/render.js:66-110 | in either layout, the cards' element numbers increase in document order |
| Actions.CollectUrlsExact | js/actions.js:37-41 | the URL list holds exactly the non-empty `data-url`s of the selected cards, one entry per such card |
| Actions.OneUrlPerCard | js/actions.js:37-41 | the `if (url)` guard skips no card: the list has one entry per selected card, in order, each that card's `data-url` |
| Actions.MissingUrlFails | js/actions.js:52-66 | a selected card without a URL sends "undefined", which the store refuses, so the deletes do not all succeed and the alert path runs |
| Actions.GatherUrls | js/actions.js:37-41 | the loop collects the non-empty `data-url`s in card order, exactly as `CollectUrls` |
| Actions.DeleteKeepsOthers | js/actions.js:60 | after removal, every other node stays, in its order, and no selected card is left |
| Actions.DeletePartition | js/actions.js:60 | the remaining nodes and the removed cards together are the old grid |
| Actions.RemoveCards | js/actions.js:60 | the loop removes exactly the given cards, and their selection |
| Actions.SelectedEls | js/actions.js:28 | the cards the query finds carry exactly the selected elements |
| Actions.DeleteSelected | js/actions.js:27-71 | no selection: no prompt and no call; declined: no call; otherwise one delete per collected URL, and then either, when every delete resolves, exactly the selected cards are removed, the selection is cleared and the bar hidden, or one alert is raised and nothing else changes; the button label is restored on both paths |

## Left out

- Time zones, the host locale and `Date` local-midnight arithmetic. The calendar day is the parameter `dayOf`. A label is a day with its kind, on the assumption that the long date form tells days apart.
- History.Lower, History.LowerChar: lower-case ASCII letters only. JavaScript's `toLowerCase` also maps other Unicode letters, and some of those change a string's length.
- `new URL(...)` parsing. A record carries its hostname, or `None` when the URL does not parse.
- `Object.keys` order: the model lists domains in first-seen order. JavaScript lists integer-like keys first; a hostname becomes such a key only in degenerate cases.
- Sorting.SortDesc: the runtime's sort algorithm is not modelled. The model has a stable sort with the same comparator. The engine's result is the same whenever the comparator is consistent, as it is here.
- The store itself (`chrome.history.search`, `deleteUrl`, `deleteRange`): its answers are parameters. The concurrency of `Promise.all` becomes one outcome per URL. Deletes that succeed before another one fails are not modelled.
- The date-range delete (js/app.js:262-297): it depends on time-zone-specific `Date` parsing.
- The 300 ms search debounce, the `IntersectionObserver` and the scroll sentinel's visibility. A settled search and a sentinel hit are events.
- Event wiring (`initActions`, `setupActions`, `setupSearch`'s listener, the exit button) and `console` output.
- Markup: favicons, time strings, titles, the "Scanning history clusters..." and "Chrome History API not available" texts. The latter is the node `Notice`.
- Selecto's hit-testing and `setSelectedTargets`. A select event is given as lists of added and removed elements. Only whether an instance is live is tracked.
- The list page's Selecto instance (js/app.js:174-212): it is created and destroyed like the card page's, and its liveness is not tracked.
- `window.location` navigation and reload, `confirm` and `alert`. Navigation, reload and the alert are results; a confirmation is a boolean input.
- Render.CardView.LoadHistory: a missing `chrome` object raises an uncaught error in the catch handler. The model covers only a present `chrome` object with or without `chrome.history`.
- Group-header counts after a delete: the card page removes the cards but not the headers, so a header can show a stale count. The model keeps the headers as the code does and states nothing about their counts afterwards.
- Data.HistoryLoader.OnResults: `lastVisitTime` is a double in milliseconds and may have a fractional part. The model keeps timestamps and the cursor as integers. So `lastVisitTime - 1` skips one instant in the model, but the whole interval [min − 1, min) in the browser.
- Grouping.GroupItems: the groups are a plain object. A hostname such as "constructor" names an inherited property, so `groups[domain]` is already truthy and `push` throws (js/render.js:81-82, js/app.js:316-317). The model treats every hostname as an ordinary key, in both the card page and the list page's group view.
