# TodoBento replica store, modelled in Dafny

This project models the state replication core of TodoBento's `BentoManager`.
A *Bento* is a named todo list. Its state is shared by every participant of a
conversation feed. Each local edit publishes a full snapshot of the Bento to the
feed. Each replica watches the feed and replaces its active Bento whenever an
incoming snapshot names that Bento's uuid.

The model covers:

- the in-place edits of the active Bento's todo list;
- the JSON state document and its tolerant reader;
- the observer that reconciles an incoming entry;
- publishing, including the sequence key (`mLastInt`);
- the rule that picks the latest snapshot from the stored history;
- the catalog with its feed dividers;
- the member-name cache;
- the scan that finds an item's image entry.

Modules, leaves first:

- `Wrappers`: `Option`, for Java's `null`.
- `Json`: JSON documents as a tree datatype, plus the org.json accessors the code uses. `optString`, `optBoolean` and `optLong` fall back to `""`, `false` and `0`. `optJSONObject` and `optJSONArray` give `None` where Java gives `null`. `getJSONObject` throws exactly where `OptObject` is `None`.
- `Todo`: `TodoItem` and `Bento`. Also the `ArrayList` primitives and the pure list edits: lookup by uuid, replace, move, filter out done items.
- `StateCodec`: `getStateObj`/`getBentoObj`/`getTodoListArray` (writing) and `fetchBentoObj`/`fetchTodoListObj`/`setNewStateObj` (reading). Also the round trip between them.
- `Feed`: Java `int` keys (`Int32`, with the wrap-around of `++mLastInt`) and the stored records. Also `fetchLatestObj` and the image-entry scan of `getTodoBitmap`.
- `Reconcile`: the decision `onUpdate` makes for one incoming entry, and `isValidBento`.
- `Catalog`: the per-root step of `loadBentoList`, the divider pass, and the member-name filter and cache.
- `Manager`: class `BentoManager`. Its fields are `bento` (`mBento`), `lastInt` (`mLastInt`), `versionCode`, `bentoList`, `memberNameCache` and two records of effects. `refreshes` counts the refresh notifications handed to listeners. `outbox` is the sequence of entries handed to the feed. The methods reassign these fields, as the Java methods update theirs. Todo items and Bentos inside the fields are values (see Left out).

Entries from the foreign collaborators become parameters:

- the database rows that queries return: a `seq<Record>` and a `seq<CatalogRow>`;
- the membership directory: a function from feed id to members;
- the entries scanned for images: a `seq<Option<Doc>>`.

`Manager.GroceriesScenario` is a client walk-through built only from the contracts. It creates a Bento and adds "Milk". It then applies a remote snapshot with the first item done and clears done items. It checks the published keys 1 and 2.

In these places the code does something a reader may not expect; the model follows the code:

- `updateTodo` publishes even when no item has the given uuid (lines 394-405).
- A first write (`pushUpdate(..., true)`) rebinds to the new root through `setBentoObjUri`. The new root has no int key, so `mLastInt` becomes 0.
- `setNewStateObj` does not check `fetchBentoObj`'s result. When `setBentoObjUri` meets a state without a `bento` object, a Bento with empty header fields becomes active.
- `fetchTodoListObj` keeps the items read before a malformed element, yet reports failure.
- With no root rows at all, `loadBentoList` keeps the old catalog. It resets the catalog only inside `if (c.moveToFirst())`.

## Model

| member | source | states |
|---|---|---|
| `Todo.FirstIndexOfUuid` | src/mobisocial/bento/todo/io/BentoManager.java:160-169 | the index found holds the uuid and no earlier item does; None exactly when no item has the uuid |
| `Todo.ReplaceFirstEffect` | src/mobisocial/bento/todo/io/BentoManager.java:395-402 | replacing by uuid keeps the length, puts the update at the first matching index, leaves every other index alone, and changes nothing when no uuid matches |
| `Todo.MovePlacesItem` | src/mobisocial/bento/todo/io/BentoManager.java:407-435 | moving keeps the length, leaves the moved item at `to`, and keeps the other items in their relative order |
| `Todo.MoveToSelf` | src/mobisocial/bento/todo/io/BentoManager.java:419-425 | moving an item onto its own index leaves the list unchanged |
| `Todo.MoveBack` | src/mobisocial/bento/todo/io/BentoManager.java:407-435 | `move(i, j)` then `move(j, i)` restores the original list |
| `Todo.AddAfterThenRemoveIsMove` | src/mobisocial/bento/todo/io/BentoManager.java:419-421 | for from < to, inserting the item after `to` and then deleting the original is the reference move |
| `Todo.FilterUndoneKeepsExactlyUndone` | src/mobisocial/bento/todo/io/BentoManager.java:448-453 | the cleared list holds exactly the items that are not done, and is shorter by the number of done items |
| `Todo.FilterUndoneShrinksIffSomeDone` | src/mobisocial/bento/todo/io/BentoManager.java:455-458 | the list shrinks, so a publish follows, if and only if some item was done |
| `Todo.FilterUndoneIdempotent` | src/mobisocial/bento/todo/io/BentoManager.java:441-459 | clearing twice leaves the same list as clearing once |
| `StateCodec.GetTodoListArray` | src/mobisocial/bento/todo/io/BentoManager.java:688-715 | the loop builds one object per item, in list order |
| `StateCodec.FetchBentoObj` | src/mobisocial/bento/todo/io/BentoManager.java:620-634 | succeeds exactly when `state` holds a `bento` object, and leaves the target's list untouched |
| `StateCodec.FetchTodoListObj` | src/mobisocial/bento/todo/io/BentoManager.java:641-671 | the loop yields the object prefix of `list`, decoded, and reports success only when every element was an object |
| `StateCodec.ObjectPrefix` | src/mobisocial/bento/todo/io/BentoManager.java:648-649 | the count of leading objects: all before it are objects, the one at it is not |
| `StateCodec.DecodeEncodeItem` | src/mobisocial/bento/todo/io/BentoManager.java:651-659 | reading a written item gives back every one of its nine fields |
| `StateCodec.TodoListRoundTrip` | src/mobisocial/bento/todo/io/BentoManager.java:693-708 | reading the written `list` gives the same items in the same order, with success |
| `StateCodec.StateRoundTrip` | src/mobisocial/bento/todo/io/BentoManager.java:717-729 | decoding the state document of a Bento gives back its uuid, name, creator and todo list; `version_code` is written but not read |
| `StateCodec.MissingItemFieldsDefault` | src/mobisocial/bento/todo/io/BentoManager.java:651-659 | in any item object, each of the nine fields that is missing reads as `""`, `false` or `0`, whatever the other fields hold |
| `StateCodec.BentoHeaderFieldsRead` | src/mobisocial/bento/todo/io/BentoManager.java:623-626 | in a `bento` object, each header field (uuid, name, creator) that holds a string is read as that string, and each that is missing reads as `""`; the uuid read is the one onUpdate compares |
| `StateCodec.MissingBentoIsReported` | src/mobisocial/bento/todo/io/BentoManager.java:622-633 | a state without `bento` makes fetchBentoObj report false |
| `StateCodec.MissingListIsReported` | src/mobisocial/bento/todo/io/BentoManager.java:644-664 | a state without `list` reports false and yields no items |
| `StateCodec.PartialListIsPrefix` | src/mobisocial/bento/todo/io/BentoManager.java:648-667 | a non-object element makes the fetch report false, and no item at or after it is read |
| `Feed.PostedKeys` | src/mobisocial/bento/todo/io/BentoManager.java:518 | n successive state updates post n keys, each `++mLastInt` of the one before |
| `Feed.PostedKeysAscend` | src/mobisocial/bento/todo/io/BentoManager.java:518 | starting from key k with k + n within the int range, n state updates post k+1, ..., k+n, each above the one before |
| `Feed.PostedKeysSnoc` | src/mobisocial/bento/todo/io/BentoManager.java:518 | one more state update posts the increment of the last key posted |
| `Feed.PostedKeysWrap` | src/mobisocial/bento/todo/io/BentoManager.java:518 | the update after the key reaches the top of the int range posts the minimum int, below every key posted before it |
| `Feed.LatestChild` | src/mobisocial/bento/todo/io/BentoManager.java:294-307 | the chosen record is an `appstate` child of the root whose int key is maximal, NULL keys sorting lowest; None exactly when there is no such child |
| `Feed.RecordById` | src/mobisocial/bento/todo/io/BentoManager.java:310-321 | the fallback query finds a record with the root's own id, None exactly when there is none |
| `Feed.FetchLatestObjIsAChoice` | src/mobisocial/bento/todo/io/BentoManager.java:291-329 | the lookup gives a maximal-key `appstate` child if one exists, else the record with id `localId`, else null |
| `Feed.ChoicesAgreeOnKey` | src/mobisocial/bento/todo/io/BentoManager.java:296 | any two answers the "int_key desc limit 1" order allows carry the same key |
| `Feed.FreshRootResolvesToItself` | src/mobisocial/bento/todo/io/BentoManager.java:513-516 | a root just inserted under a fresh id resolves to itself, with key 0 |
| `Feed.ImageSearchCrashesOnScalarImage` | src/mobisocial/bento/todo/io/BentoManager.java:194-196 | the scan as written dereferences null on an entry whose `todo_image` is a string |
| `Feed.FindImageEntry` | src/mobisocial/bento/todo/io/BentoManager.java:192-203 | returns the first entry whose `todo_image.todo_image_uuid` is the item's uuid, or none when no entry carries one |
| `Feed.ImageSearchAgrees` | src/mobisocial/bento/todo/io/BentoManager.java:192-203 | wherever the scan as written does not crash, it finds the same first matching entry |
| `Reconcile.React` | src/mobisocial/bento/todo/io/BentoManager.java:559-605 | the corrected decision never dereferences null |
| `Reconcile.IgnoredIffStateless` | src/mobisocial/bento/todo/io/BentoManager.java:564-568 | an entry is dropped without notification exactly when it has no `state` |
| `Reconcile.AppliesExactlyOnMatchingUuid` | src/mobisocial/bento/todo/io/BentoManager.java:580-600 | the state is replaced iff a Bento is active and the entry's `bento` object names its uuid; the new state is the decoded snapshot with that uuid, and the key is the entry's int key or 0 |
| `Reconcile.ForeignBentoOnlyNotifies` | src/mobisocial/bento/todo/io/BentoManager.java:731-733 | an entry for another Bento's uuid is notified but does not touch the active state |
| `Reconcile.ReapplyIsIdempotent` | src/mobisocial/bento/todo/io/BentoManager.java:597-600 | applying the same entry a second time yields the same state and key |
| `Reconcile.ScalarStateCrashes` | src/mobisocial/bento/todo/io/BentoManager.java:585-588 | onUpdate as written dereferences null on an entry whose `state` is a number |
| `Reconcile.ReactAgreesWhereAsWrittenSurvives` | src/mobisocial/bento/todo/io/BentoManager.java:585-595 | the corrected decision equals the code's wherever the code does not crash, and only notifies where it would |
| `Catalog.RowOutcomeFor` | src/mobisocial/bento/todo/io/BentoManager.java:240-264 | the corrected per-root step never crashes, and a listed summary carries the row's root and feed ids |
| `Catalog.ScalarStateCrashesRow` | src/mobisocial/bento/todo/io/BentoManager.java:244-246 | loadBentoList as written dereferences null for a root whose `state` is a boolean |
| `Catalog.RowOutcomeAgrees` | src/mobisocial/bento/todo/io/BentoManager.java:244-264 | the corrected per-root step equals the code's wherever the code does not crash, and skips the root where it would |
| `Catalog.ListingShowsEveryListedRow` | src/mobisocial/bento/todo/io/BentoManager.java:256-259 | every root whose state and list both read appears in the catalog |
| `Catalog.ListedRowsWereShown` | src/mobisocial/bento/todo/io/BentoManager.java:256-259 | every summary in the catalog is the summary of a root whose state and list both read |
| `Catalog.ListingOfPrefixIsSuffix` | src/mobisocial/bento/todo/io/BentoManager.java:236-266 | the summaries listed from the first m roots end the whole list, since later roots go to the front |
| `Catalog.ListingPlacesRow` | src/mobisocial/bento/todo/io/BentoManager.java:258 | a listed root's summary sits right after the summaries of the roots that follow it |
| `Catalog.ListingReversesRows` | src/mobisocial/bento/todo/io/BentoManager.java:258 | of two listed roots, the later one's summary comes first |
| `Catalog.DividersOnlyAdded` | src/mobisocial/bento/todo/io/BentoManager.java:270-284 | the divider pass drops no summary and reorders none |
| `Catalog.DividersHeadFeedRuns` | src/mobisocial/bento/todo/io/BentoManager.java:272-282 | each summary directly follows its feed's divider or a summary of the same feed; each divider directly precedes a summary of its feed; and a divider stands only where the feed changes from the entry before (from -1 at the start) |
| `Catalog.OtherMemberNamesExact` | src/mobisocial/bento/todo/io/BentoManager.java:356-364 | a name is cached iff it belongs to a non-null member that is not the local user |
| `Catalog.CollectMemberNames` | src/mobisocial/bento/todo/io/BentoManager.java:352-364 | the member loop collects exactly those names, in directory order |
| `Catalog.FillCache` | src/mobisocial/bento/todo/io/BentoManager.java:346-367 | after a fetch the cache exists and holds the feed |
| `Catalog.CacheFillsOnce` | src/mobisocial/bento/todo/io/BentoManager.java:351 | a second fetch for a cached feed changes nothing, even if the members changed |
| `Catalog.CacheEntryValue` | src/mobisocial/bento/todo/io/BentoManager.java:346-367 | a fetch on a miss adds exactly that feed with its other members' names and keeps every other entry |
| `Catalog.FillAllOnlyAdds` | src/mobisocial/bento/todo/io/BentoManager.java:262 | fetching along the catalog keeps every cached entry and caches every feed met |
| `Manager.Published` | src/mobisocial/bento/todo/io/BentoManager.java:497-509 | the published document carries the state object, and `todo_image` with the item's uuid exactly when both uuid and data are given |
| `Manager.Thumb` | src/mobisocial/bento/todo/io/BentoManager.java:504-509 | the thumbnail data rides along exactly when both uuid and data are given |
| `Manager.PublishedEntryReapplies` | src/mobisocial/bento/todo/io/BentoManager.java:559-605 | an entry published for a Bento makes every replica active on its uuid, the author included, adopt exactly that Bento |
| `Manager.SuccessiveUpdates` | src/mobisocial/bento/todo/io/BentoManager.java:518 | n successive publishes of the current order append n entries keyed by `PostedKeys` of the starting key, leave the Bento alone, and end with the last of those keys |
| `Manager.BentoManager.constructor` | src/mobisocial/bento/todo/io/BentoManager.java:107-110 | no Bento is active, the cache is null, the key is 0, the catalog and outbox are empty |
| `Manager.BentoManager.GetTodoListCount` | src/mobisocial/bento/todo/io/BentoManager.java:171-177 | the count is the active list's length, and 0 exactly when there is no Bento or the list is empty |
| `Manager.BentoManager.GetTodoListItem` | src/mobisocial/bento/todo/io/BentoManager.java:160-169 | returns the first item with the uuid, or null exactly when none has it |
| `Manager.BentoManager.PushUpdate` | src/mobisocial/bento/todo/io/BentoManager.java:495-524 | a first write appends a `todobento` entry and reads back the same Bento, with key 0; any other write appends an `appstate` entry keyed by the old key incremented; each write carries the current state and the image fields exactly when both uuid and data are given |
| `Manager.BentoManager.SetNewStateObj` | src/mobisocial/bento/todo/io/BentoManager.java:610-614 | the active Bento becomes the one decoded from the state |
| `Manager.BentoManager.ApplyLatest` | src/mobisocial/bento/todo/io/BentoManager.java:538-550 | a lookup whose JSON has `state` replaces the Bento and key, or clears both if `state` is not an object; otherwise nothing changes |
| `Manager.BentoManager.SetBentoObjUri` | src/mobisocial/bento/todo/io/BentoManager.java:526-557 | binding to a root applies what the history lookup for it returns |
| `Manager.BentoManager.CreateBento` | src/mobisocial/bento/todo/io/BentoManager.java:373-377 | the Bento becomes active, one root entry with its state is appended, and the key is 0 |
| `Manager.BentoManager.AddTodo` | src/mobisocial/bento/todo/io/BentoManager.java:379-388 | the item lands at index 0, every old item moves one later, the count grows by one, and one state update follows, with the image only when one was given |
| `Manager.BentoManager.RemoveTodo` | src/mobisocial/bento/todo/io/BentoManager.java:390-392 | nothing changes and nothing is published |
| `Manager.BentoManager.UpdateTodo` | src/mobisocial/bento/todo/io/BentoManager.java:394-405 | the first item with the uuid is replaced in place, and one state update follows even when none matched |
| `Manager.BentoManager.SortTodoList` | src/mobisocial/bento/todo/io/BentoManager.java:407-435 | the list becomes the reference move of `from` to `to`, and nothing is published |
| `Manager.BentoManager.SortTodoCompleted` | src/mobisocial/bento/todo/io/BentoManager.java:437-439 | the current order is published as one state update |
| `Manager.BentoManager.ClearTodoDone` | src/mobisocial/bento/todo/io/BentoManager.java:441-459 | the list becomes the not-done items in order; one state update follows exactly when it shrank; an empty list publishes nothing |
| `Manager.BentoManager.OnUpdate` | src/mobisocial/bento/todo/io/BentoManager.java:559-605 | counts a refresh for every entry with `state`, and changes the Bento and key only as the corrected decision applies |
| `Manager.BentoManager.FetchMemberNames` | src/mobisocial/bento/todo/io/BentoManager.java:346-368 | creates the cache if null and fills the feed's entry on a miss only |
| `Manager.BentoManager.GetMemberNames` | src/mobisocial/bento/todo/io/BentoManager.java:339-344 | returns the cached names, fetching on a miss; a hit changes nothing |
| `Manager.BentoManager.LoadRow` | src/mobisocial/bento/todo/io/BentoManager.java:237-265 | one root is listed at the front exactly when its state and list read, and its members are fetched whenever its bento reads |
| `Manager.BentoManager.AppendWithDividers` | src/mobisocial/bento/todo/io/BentoManager.java:270-284 | appends the summaries with a divider before each change of feed |
| `Manager.BentoManager.LoadBentoList` | src/mobisocial/bento/todo/io/BentoManager.java:222-289 | the catalog becomes the listed roots, newest first, with dividers; it keeps its old value when there are no roots; members are fetched for every feed met |

## Left out

- Content-provider queries, `Cursor`s, `Musubi`, `DbFeed` and `DbObj` are left out. What they return is a parameter. What `getSubfeed().postObj` and `getFeed().insert` receive is appended to `outbox`.
- Observer registration and unregistration, and `mCurrentUri`, are left out. The model has one current root and does not track which feed an entry goes to.
- JSON text parsing and printing (`new JSONObject(String)`, `toString()`) are left out. A document that does not parse is `None`. The `JSONException` catch in `pushUpdate` cannot fire in the model.
- The `Obj.FIELD_RENDER_TYPE` field, the `FeedRenderable` message text and every `msg` parameter are left out. They are rendering details of a foreign library. The thumbnail sits beside the document as `Entry.thumb`, because its key is a foreign constant.
- `Base64`, `BitmapFactory`, `BitmapHelper` and the `float degrees` rotation are left out: they are foreign codecs and floating point. `getTodoBitmap` is modelled only as the scan that picks the matching entry (`Feed.FindImageEntry`).
- The `Handler.post` hand-off, the listener list, `addListener`/`removeListener` and `synchronized` are left out. `refreshes` counts the notifications instead.
- The singleton `getInstance`, `init`, `setMusubi` (`mVersionCode` is a constructor argument), `setFeedUri`, `setFromMusubi`, `isFromMusubi`, the local-user lookups (lines 552-554) and `Log` output are left out as wiring.
- The plain getters `hasBento`, `getBentoListItem`, `getTodoListItem(int)`, `getBentoListCount`, `getLocalContactId` and `getLocalName` are left out. Each returns a field.
- A history record whose JSON failed to parse would be dereferenced at lines 244 and 540. `SetBentoObjUri` and `LoadBentoList` require that this does not happen (`Catalog.Parsed`).
- Java `null` strings are left out: every string is a value. `put(key, null)` would drop that key.
- org.json's coercions are left out. The model does not turn a non-string into text, parse `"true"` or numeric strings, or truncate doubles. A value of the wrong kind reads as the default.
- Object identity and aliasing are left out. Todo items and Bentos are values. In the source, `getTodoListItem(String)` and `getBentoListItem()` return the stored objects, and `addTodo`, `updateTodo` and `createBento` store the caller's objects. A caller that later mutates one of those objects changes the store without a publish. The model does not capture this: `Manager.BentoManager.GetTodoListItem` returns a copy, and `AddTodo`, `UpdateTodo` and `CreateBento` store copies.
- Dates are unbounded integers, not 64-bit `long`s.
- The field values of a fresh `Bento`/`BentoListItem` are not part of this model (their classes are not shown). They are taken as empty strings and an empty list (`Todo.EmptyBento`). The catalog keeps the item count in `BentoSummary.numberOfTodo`.
- `Feed.LatestChild`: when several state updates share the top key, it fixes one of them (the first in storage order). The store leaves that choice open and the model does not resolve it. `Feed.IsLatestChoice` describes every admissible answer, and `Feed.ChoicesAgreeOnKey` shows that they all carry the same key. Same-key races between writers are not resolved.
- `Manager.BentoManager.PushUpdate`: a first write's rebinding uses the answer a fresh root gets from the history lookup (`Feed.FreshRootResolvesToItself`). It does not query a stored history.
- `Manager.BentoManager.OnUpdate`, `Manager.BentoManager.LoadRow` and `Feed.FindImageEntry` follow the corrected behaviour of the Findings below. Where the code dereferences null, they treat the value as absent.
- Dereferencing a null `mBento` is left out. The methods that do it in the source (`addTodo`, `updateTodo`, `sortTodoList`, `clearTodoDone`, `pushUpdate`, `getTodoListItem(String)`) require an active Bento. `sortTodoList` also requires both indices to be in bounds, as `ArrayList` does.

## Findings

| source | as written | input that shows it | evidently intended | confidence | as-written member | corrected member |
|---|---|---|---|---|---|---|
| src/mobisocial/bento/todo/io/BentoManager.java:585-588 | `optJSONObject(STATE)` yields null when `state` is not an object; `getJSONObject` is then called on that null; only `JSONException` is caught | an entry `{"state": 1}` arriving while a Bento is active | drop the entry after notifying, like a missing `bento` | medium; not executed | `Reconcile.ScalarStateCrashes` | `Reconcile.ReactAgreesWhereAsWrittenSurvives` |
| src/mobisocial/bento/todo/io/BentoManager.java:244-246 | the same null `stateObj` is passed to `fetchBentoObj`, which dereferences it | a root whose latest record is `{"state": true}` | skip that root in the catalog | medium; not executed | `Catalog.ScalarStateCrashesRow` | `Catalog.RowOutcomeAgrees` |
| src/mobisocial/bento/todo/io/BentoManager.java:194-196 | `optJSONObject(TODO_IMAGE)` yields null when `todo_image` is not an object, and `diff.optString` dereferences it | a feed entry `{"todo_image": "t1"}` before the matching one | skip that entry and keep scanning | medium; not executed | `Feed.ImageSearchCrashesOnScalarImage` | `Feed.FindImageEntry` |
