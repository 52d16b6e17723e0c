# LSP-julia test-item store, documentation history and settings merge

This project models in Dafny the stateful core of the LSP-julia Sublime Text plugin, and proves properties of that model.

- **Test-item store** (`TestItemStorage`, in `plugin.py`). It keeps the test items the Julia language server publishes, per file:
  - the run parameters;
  - the published item list;
  - a status list that runs parallel to the item list;
  - one flag, `pending_result`, saying that a test run is in flight.

  It models these operations:
  - the publish handler `update`, which either deletes the entry, starts a fresh generation, or carries statuses over by test-item id;
  - `stored_version`;
  - the construction of the run request;
  - run admission (`run_testitem`);
  - the result callback (`on_result`);
  - the failure branch of the worker thread.
- **Variant store** (`testrunner/testitems.py`). This is a second revision of the same store. It differs in six ways:
  - it also stores published test errors;
  - it deletes a file's entry only when a publish has neither items nor errors, where the plugin deletes it when there are no items;
  - every item starts out Undetermined;
  - it matches by id without skipping error items;
  - a run request with insufficient data returns silently (`Ignored`), where the plugin shows a status message (`InsufficientData`);
  - on a crash it changes only the status entry.
- **Documentation back/forward history** (`JuliaSearchDocumentationCommand.run`). It has a back stack bounded to 100 words, an unbounded forward stack and the current word.
- **`merge_dicts`** (`utils.py`). It recursively merges user settings into the default settings.

Layout:

| file | module | contents |
|---|---|---|
| `optional.dfy` | `Optional` | the `Option` type |
| `test_item_types.dfy` | `TestItemTypes` | test items, results, parameters, run token, run request |
| `reconcile.dfy` | `Reconcile` | matching by first id, carry-over, Pending reset, run request, shared by both stores |
| `plugin_store.dfy` | `PluginStore` | the plugin's store: specification functions over `Store`, lemmas, and the class `TestItemStorage` |
| `variant_store.dfy` | `VariantStore` | the variant store, in the same shape |
| `doc_history.dfy` | `DocHistory` | the history as a function `Search`, lemmas, and the class `SearchDocumentation` |
| `settings_merge.dfy` | `SettingsMerge` | JSON-like values, ordered association lists, `Merge` and its lemmas |

Each store is described twice.
- A function over an immutable `Store` value states what each operation does.
- A class performs the operation by reassigning its map fields. It has the Python object's fields except `window` and `error_keys`, and adds the constant `keyOf`. Each of its methods is proved to leave the state that the function gives (`Abs() == Updated(old(Abs()), …)`).

The class methods that carry out loops are proved against `CarryOver` and `ResetPending`. These loops are the nested matching loop of `update` and the Pending-reset loop of `on_result`.

Some things outside the store are parameters:
- Taking the file path of a URI (`parse_uri`) is the class's constant `keyOf`.
- The worker thread is modelled as calls to `OnResult` or to `OnRunFailed` after `RunTestItem`.

## Model

| member | source | states |
|---|---|---|
| TestItemTypes.Navigable | plugin.py:405 | an annotation starts a run on click exactly for the statuses Passed, Failed, Errored and Undetermined, so never while Pending or Invalid |
| Reconcile.InitialStatus | plugin.py:288-292 | one entry per published item, with no message and no duration; an entry is Invalid exactly when errors are marked and the item has an error, and Undetermined otherwise |
| Reconcile.FirstMatch | plugin.py:315-321 | the inner loop's match is the first new item with the old id; with error skipping, items with an error are never matched; None exactly when no item qualifies |
| Reconcile.CarryOver | plugin.py:314-321 | carrying statuses over keeps the status list as long as the new item list |
| Reconcile.CarryOverUnsent | plugin.py:288-292 | a new item that no old item is matched with keeps its initial status |
| Reconcile.CarryOverLastSender | plugin.py:314-321 | a new item ends up with the status of the LAST old item matched with it (later old items overwrite earlier ones) |
| Reconcile.CarryOverFollowsId | plugin.py:305-321 | with unique ids, an eligible new item takes the status of the old item with its id, wherever the item moved |
| Reconcile.CarryOverKeepsUnmatched | plugin.py:314-321 | a new item that no old item is eligible to match keeps its initial status |
| Reconcile.CarryStatusOver | plugin.py:314-321 | the nested loop, with `continue` on error items and `break` on the first match, computes exactly `CarryOver` |
| Reconcile.ResetPending | plugin.py:523-525 | same length; no entry is Pending afterwards; non-Pending entries are unchanged; Pending entries become Undetermined and keep their message and duration |
| Reconcile.ClearPending | plugin.py:523-525 | the in-place loop over the status list computes `ResetPending` |
| Reconcile.BuildRequest | plugin.py:431-456 | no request exactly when the code range is missing, the code is missing or empty, or project path, package path and package name are all empty; otherwise every request field is set from the item and the parameters, with line minus one when the column is 0, and default usings unless the option is explicitly false |
| PluginStore.StoredVersion | plugin.py:326-331 | the stored version when the file has an entry, None otherwise |
| PluginStore.Updated | plugin.py:274-323 | consistency is kept; other files are untouched; an empty publish deletes the entry from all three maps, and is a no-op without an entry; a new file or changed project identity stores fresh parameters with version = payload version or 0, and the initial status list; the same identity sets the new uri, sets version = payload version or old + 1, and carries statuses over |
| PluginStore.Dropped | plugin.py:280-285 | the file's key is removed from the parameters, the items and the statuses; every other file and the run lock are untouched, and consistency is kept |
| PluginStore.Put | plugin.py:293-323 | the file's parameters, items and statuses are replaced by the given ones; every other file and the run lock are untouched, and consistency is kept |
| PluginStore.PublishedStatusAt | plugin.py:288-321 | each new entry is Invalid for an error item; it is Undetermined in a fresh generation or when no old item has its id; it keeps its initial entry when no old item is matched with it (for instance a later duplicate of an id); for each old item matched with it and not followed by another such old item, it holds that old item's status |
| PluginStore.RepublishKeepsStatusById | plugin.py:305-321 | with unique ids and the same project, a new item without an error keeps the status of the old item with its id |
| PluginStore.ReorderedRepublishExample | plugin.py:314-321 | items [A: Passed, B: Failed] republished as [B, A] give [Failed, Passed] |
| PluginStore.ChangedPackageResetsExample | plugin.py:293-303 | with a changed package name, every status starts over as Undetermined |
| PluginStore.FixedItemStaysInvalidExample | plugin.py:288-321 | an item published with an error and then republished without it, under the same id and project, keeps the Invalid entry and stays not navigable |
| PluginStore.RequestParams | plugin.py:425-430 | no request without a stored entry; otherwise the request built from the stored parameters and item `idx` |
| PluginStore.Admit | plugin.py:458-475 | while a run is pending, nothing changes; a version other than the stored one (or no entry) is rejected unchanged; a current token whose request cannot be built gives InsufficientData, exactly then, and changes nothing; a started run sets the lock and changes only slot `idx`, to Pending (not navigable), and its request is the built one |
| PluginStore.WithResult | plugin.py:513-525 | the lock is cleared; with a matching version and an existing slot `idx` only that slot is written with the result; with a matching version but no slot `idx` (the write raises) nothing else changes; with another version no result is written and every Pending entry of the file is reset to Undetermined |
| PluginStore.WithFailureAsWritten | plugin.py:505-509 | the failure branch as written: the lock is cleared, slot `idx` of the current lists is set to Invalid and gets the crash message, whatever the version |
| PluginStore.WithFailure | plugin.py:505-509 | corrected failure branch: in the run's own generation it acts as written, including when slot `idx` is missing (only the lock is cleared); in a later generation it touches no item and resets the Pending entries |
| PluginStore.AdmittedRunCompletes | plugin.py:513-518 | a started run followed by its result writes exactly its own slot and releases the lock |
| PluginStore.StaleResultDiscarded | plugin.py:519-525 | a republish between start and result makes the result be dropped, with the lock free and nothing left Pending |
| PluginStore.StaleFailureAsWritten | plugin.py:505-509 | counterexample: after [a, b] is republished as [b, a] during a run of b, the failure leaves b Pending and marks a Invalid with the crash message |
| PluginStore.StaleFailureCorrected | plugin.py:505-509 | the same scenario with the corrected branch: the items are untouched and nothing is left Pending |
| PluginStore.RunLockAlwaysReleased | plugin.py:505-514 | both callbacks clear the lock first, so after the result callback, the failure branch as written or the corrected failure branch, with any version and any slot, the next run request is never turned down by the already-running check of `run_testitem` |
| PluginStore.VersionCollisionExample | plugin.py:296-311 | a same-project republish without a version counts up to 1, and a republish of another package without a version goes back to 0, so an earlier run's token matches again; with one item the late result only clears the lock, with two items it overwrites the unrelated second item |
| PluginStore.TestItemStorage.constructor | plugin.py:266-271 | the store starts with no run pending and empty maps |
| PluginStore.TestItemStorage.Update | plugin.py:274-324 | the in-place update leaves exactly the state `Updated` gives, and keeps consistency |
| PluginStore.TestItemStorage.StoreGeneration | plugin.py:288-323 | the non-empty branch of the update: new or carried parameters, then the new lists |
| PluginStore.TestItemStorage.RunTestItem | plugin.py:458-475 | the outcome and new state are those of `Admit` |
| PluginStore.TestItemStorage.OnResult | plugin.py:513-525 | the new state is that of `WithResult` |
| PluginStore.TestItemStorage.OnRunFailedAsWritten | plugin.py:505-509 | the new state is that of `WithFailureAsWritten` |
| PluginStore.TestItemStorage.OnRunFailed | plugin.py:505-509 | the new state is that of the corrected `WithFailure` |
| VariantStore.StoredVersion | testrunner/testitems.py:176-181 | the stored version when the file has an entry, None otherwise |
| VariantStore.Updated | testrunner/testitems.py:123-173 | consistency across the four maps is kept; other files are untouched; a publish with items or errors leaves an entry |
| VariantStore.UpdatedEntry | testrunner/testitems.py:130-173 | only a publish with neither items nor errors deletes the entry from all four maps, and it is a no-op without one; otherwise items and errors are stored as published with a status list as long as the items; a fresh generation resets the parameters (version = payload version or 0) and starts all Undetermined; the same identity sets version = payload version or old + 1 and carries statuses over without skipping any item |
| VariantStore.Dropped | testrunner/testitems.py:130-136 | the file's key is removed from all four maps; every other file and the run lock are untouched, and consistency is kept |
| VariantStore.Put | testrunner/testitems.py:145-173 | the file's parameters, items, errors and statuses are replaced by the given ones; every other file and the run lock are untouched, and consistency is kept |
| VariantStore.RepublishStatusAt | testrunner/testitems.py:155-170 | a new item whose id no old item has starts Undetermined; with unique ids it takes the old item's status, whether or not it has an error |
| VariantStore.RequestParams | testrunner/testitems.py:283-290 | no request without a stored entry; otherwise the request built from the stored parameters and the item |
| VariantStore.Admit | testrunner/testitems.py:318-335 | pending or a version mismatch rejects with no change; missing data returns silently with no change, exactly when the token is current and no request can be built; a run starts exactly when the token is current and the request can be built, and then it sets the lock and marks only slot `idx` Pending |
| VariantStore.WithResult | testrunner/testitems.py:374-388 | the lock is cleared; with a matching version and an existing slot `idx` only that slot is written; with a matching version but no slot `idx` nothing else changes; with another version Pending entries are reset to Undetermined |
| VariantStore.WithFailure | testrunner/testitems.py:367-370 | the lock is cleared and only the status of slot `idx` becomes Invalid; item details and errors are untouched |
| VariantStore.TestItemStorage.constructor | testrunner/testitems.py:114-120 | the store starts with no run pending and four empty maps |
| VariantStore.TestItemStorage.Update | testrunner/testitems.py:123-174 | the in-place update leaves exactly the state `Updated` gives, and keeps consistency |
| VariantStore.TestItemStorage.StoreGeneration | testrunner/testitems.py:139-173 | the non-empty branch: new or carried parameters, then items, errors and statuses |
| VariantStore.TestItemStorage.RunTestItem | testrunner/testitems.py:318-349 | the outcome and new state are those of `Admit` |
| VariantStore.TestItemStorage.OnResult | testrunner/testitems.py:374-389 | the new state is that of `WithResult` |
| VariantStore.TestItemStorage.OnRunFailed | testrunner/testitems.py:367-372 | the new state is that of `WithFailure` |
| DocHistory.Initial | plugin.py:906-908 | both stacks start empty and there is no current word |
| DocHistory.PushBack | plugin.py:906 | appending to the back stack (maxlen 100) keeps it within 100 and puts the word on top; a full stack drops its oldest entry |
| DocHistory.Search | plugin.py:910-935 | "__back" and "__forward" move the top word of one stack to current and the old current onto the other stack; on an empty stack they return without a request and change nothing; another word is always requested and becomes current; it pushes the old current and clears the forward stack only when it differs from the old current |
| DocHistory.BackThenForward | plugin.py:911-923 | back followed by forward restores the history |
| DocHistory.ForwardThenBack | plugin.py:911-923 | forward followed by back restores the history while the back stack has room; with a full back stack only the oldest entry is lost |
| DocHistory.SameWordKeepsHistory | plugin.py:925-933 | querying the current word again changes no history and still sends the request |
| DocHistory.NewWordDropsForward | plugin.py:930-933 | after a new word, forward does nothing and back returns to the previous word |
| DocHistory.SearchDocumentation.constructor | plugin.py:906-908 | the command object starts in the initial history |
| DocHistory.SearchDocumentation.Run | plugin.py:910-935 | the in-place update of the two stacks and the current word leaves the state `Search` gives and returns the word it requests |
| SettingsMerge.IndexOf | utils.py:8 | the first position of a key, None exactly when the key is absent |
| SettingsMerge.Lookup | utils.py:8-9 | `key in d` and `d[key]`: None exactly when the key is absent, otherwise a value stored under that key |
| SettingsMerge.UserOnly | utils.py:20-22 | the user members whose key is not a default key, and only those |
| SettingsMerge.Merge | utils.py:5-22 | the merge has one member per default member, each the default member merged with the user settings, in default order, followed by exactly the user-only members in user order |
| SettingsMerge.MergeFrom | utils.py:7-18 | the loop over the defaults from index `i` yields one merged member per remaining default, in order |
| SettingsMerge.MergeMember | utils.py:8-18 | a merged default member keeps its key |
| SettingsMerge.UserOnlyConcat | utils.py:20-22 | the user-only part keeps the user's order |
| SettingsMerge.UserOnlyDisjoint | utils.py:20-22 | with no default key in the way, every user member is kept |
| SettingsMerge.UserOnlyUnique | utils.py:20-22 | the user-only part of a dictionary with unique keys has unique keys |
| SettingsMerge.LookupUserOnly | utils.py:20-22 | a user-only key has the user's value in the user-only part |
| SettingsMerge.MergeKeyOrder | utils.py:7-22 | the output keys are the default keys in default order, followed by the user-only keys in user order |
| SettingsMerge.UserOnlyKeys | utils.py:20-22 | a key is a user-only key exactly when the user sets it and the defaults do not |
| SettingsMerge.MergeKeySet | utils.py:7-22 | the output's key set is the union of the default and user key sets |
| SettingsMerge.MergeUniqueKeys | utils.py:7-22 | each key appears once when each input has unique keys |
| SettingsMerge.MergeLookup | utils.py:7-22 | a default-only key keeps its default value; a user-only key gets the user's value; a key with dictionaries on both sides gets their recursive merge; any other key set on both sides gets the user's value |
| SettingsMerge.MergeNoUser | utils.py:5-22 | merging empty user settings gives the defaults |
| SettingsMerge.MergeNoDefaults | utils.py:5-22 | merging into empty defaults gives the user settings |

## Left out

- Rendering. `render_testitems`, the annotation HTML, `hide_annotation` and `clear_error_annotations` are Sublime view regions and style lookups. Only the fact that Pending and Invalid are not navigable is kept, as `Navigable`.
- Duration labels. These depend on floating-point rounding and formatting. A duration is kept as an uninterpreted `real`.
- I/O and concurrency. The subprocess launch, JSON encoding and decoding, `threading` and `sublime.set_timeout` are not modelled. The worker thread's effects are modelled as separate sequential calls, so the race between the thread's failure path and the main thread is not modelled.
- URI and link parsing. `parse_uri`, `urldefrag`, `parse_qs` and the `&amp;` link encoding are library behaviour. The file path of a URI is the abstract `keyOf`, and a link is a `RunToken` triple.
- Python exceptions. When an exception is raised after `pending_result` has been cleared (an index or key error in the failure branch), the model's result is "lock cleared, nothing else changed".
- PluginStore.WithResult, VariantStore.WithResult and both `OnResult` methods require the file to have an entry. The code indexes the maps without a check; the callback only arrives for a file with a stored entry unless a publish deleted it during the run, and then the code raises a key error after clearing the lock.
- The `window` and `error_keys` fields are not modelled. The window only serves rendering and status messages, and `error_keys` only tracks the annotation regions of test errors.
- PluginStore.Admit and VariantStore.Admit require `TokenInBounds`: a token that passes the version check addresses an existing item. The code indexes `testitemdetails[filepath][idx]` without a check.
- Aliasing. The status entries are Python dicts that a republish moves from the old list into the new one. No entry is ever reachable from two slots, so the model treats the entries as values.
- The sharing of the history deques. `_last_words` and `_next_words` are class attributes, so all windows share them, while `_current_word` is assigned per instance. The model covers one command object, so the history of different windows mixing is not captured.
- DocHistory.Search requires `ValidHistory`. The code never pushes a missing current word, because a stack only becomes non-empty after a query has set a current word. `Initial` satisfies this invariant and `Search` keeps it.
- The request sent to the server and the rendering of the sheet (`on_result` of the history command, `prepare_markdown`) are not modelled. `Search` returns the word it would request.
- Settings merge inputs. Dictionaries are association lists. All properties hold for arbitrary lists, with lookup by first occurrence, except that uniqueness of the output's keys assumes unique input keys, as Python dictionaries have. `load_settings` and resource loading are not modelled.
- VariantStore.WithFailure: modelled as written, with the same defect as the plugin's failure branch (testrunner/testitems.py:367-370). It ignores the run's version, so after a reorder it marks the wrong item Invalid and leaves the moved item Pending. The correction is the plugin's `WithFailure` and is not repeated for the variant.
- Old error items. The matching loop skips new items with an error but not old ones (plugin.py:314-320), so a fixed item inherits its old Invalid entry (`FixedItemStaysInvalidExample`). The model keeps this as written; whether the source intends it is not clear from the code, so no corrected matching is given.
- Version collisions. A republish without a version can give a version an earlier generation had (`VersionCollisionExample`), and a late result then passes the version check. The code has no generation counter that would tell the two apart, so the model keeps this behaviour as written.

## Findings

| source | as written | input that shows it | evidently intended | confidence | as-written member | corrected member |
|---|---|---|---|---|---|---|
| plugin.py:505-509 | the failure branch writes `Invalid` and the crash message into slot `idx` of the file's current lists without the version check that `on_result` makes | run item b of [a, b]; before it fails, the same project republishes [b, a]; then the run fails: b is left Pending with the lock released, and a is marked crashed | ignore a stale failure for the items and reset left-over Pending entries, as the stale branch of `on_result` does | medium; not executed | PluginStore.WithFailureAsWritten (StaleFailureAsWritten) | PluginStore.WithFailure (StaleFailureCorrected) |
