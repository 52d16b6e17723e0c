/**
 * The test-item store of the plugin (class TestItemStorage in plugin.py): per file, the run
 * parameters, the published item list and a status list parallel to it, plus one global
 * flag saying that a test run is in flight.
 *
 * The functions over `Store` state what each operation does; the class below performs the
 * same operations by updating its fields in place and is proved to agree with them.
 */
module PluginStore {
  import opened Optional
  import opened TestItemTypes
  import opened Reconcile

  /** The payload of a publish notification of this revision. */
  datatype Publish = Publish(
    uri: Uri,
    version: Option<int>,
    projectPath: string,
    packagePath: string,
    packageName: string,
    items: seq<TestItem>)

  datatype Store = Store(
    pendingResult: bool,
    params: map<Path, Params>,
    details: map<Path, seq<TestItem>>,
    status: map<Path, seq<TestResult>>)

  /** The error text the failure path stores on the item whose run crashed. */
  const CrashMessage: string :=
    "The test process crashed while running this testitem.<br>Please check the console and consider to create an issue report in the LSP-julia GitHub repo."

  /**
   * The three maps share one key set, every stored item list is non-empty and every status
   * list runs parallel to its item list.
   */
  ghost predicate Consistent(s: Store) {
    && s.details.Keys == s.params.Keys
    && s.status.Keys == s.params.Keys
    && forall k :: k in s.params ==> EntryConsistent(s.details[k], s.status[k])
  }

  /** One file's entry: a non-empty item list and a status list of the same length. */
  predicate EntryConsistent(items: seq<TestItem>, status: seq<TestResult>) {
    0 < |items| == |status|
  }

  /** The project identity of the stored parameters equals that of the payload. */
  predicate SameProject(p: Params, pub: Publish) {
    p.projectPath == pub.projectPath && p.packagePath == pub.packagePath && p.packageName == pub.packageName
  }

  /** The version stored for a file, if it has an entry. */
  function StoredVersion(s: Store, key: Path): (r: Option<int>)
    ensures r.Some? <==> key in s.params
    ensures r.Some? ==> r.value == s.params[key].version
  {
    if key in s.params then Some(s.params[key].version) else None
  }

  /** The store after a publish notification for the file `key`. */
  function Updated(s: Store, key: Path, pub: Publish): (r: Store)
    requires Consistent(s)
    ensures Consistent(r)
    ensures r.pendingResult == s.pendingResult
    // Entries of other files are left alone.
    ensures r.params - {key} == s.params - {key}
    ensures r.details - {key} == s.details - {key}
    ensures r.status - {key} == s.status - {key}
    // An empty publish removes the entry from all three maps, and is a no-op without one.
    ensures pub.items == [] ==> key !in r.params && key !in r.details && key !in r.status
    ensures pub.items == [] && key !in s.params ==> r == s
    // A non-empty publish stores the payload list and a status list of the same length.
    ensures pub.items != [] ==> key in r.params && r.details[key] == pub.items && |r.status[key]| == |pub.items|
    // A new file or a changed project identity starts a fresh generation.
    ensures pub.items != [] && (key !in s.params || !SameProject(s.params[key], pub)) ==>
              && r.params[key] == Params(pub.uri, pub.version.GetOr(0), pub.projectPath, pub.packagePath, pub.packageName)
              && r.status[key] == InitialStatus(pub.items, true)
    // The same project identity keeps the entry: new uri, next version, statuses carried over.
    ensures pub.items != [] && key in s.params && SameProject(s.params[key], pub) ==>
              && r.params[key] == s.params[key].(uri := pub.uri, version := pub.version.GetOr(s.params[key].version + 1))
              && r.status[key] == CarryOver(s.details[key], s.status[key], pub.items,
                                            InitialStatus(pub.items, true), true, |s.details[key]|)
  {
    if pub.items == [] then
      if key in s.params then Dropped(s, key) else s
    else
      var init := InitialStatus(pub.items, true);
      if key !in s.params || !SameProject(s.params[key], pub) then
        var p := Params(pub.uri, pub.version.GetOr(0), pub.projectPath, pub.packagePath, pub.packageName);
        Put(s, key, p, pub.items, init)
      else
        var prev := s.params[key];
        var p := prev.(uri := pub.uri, version := pub.version.GetOr(prev.version + 1));
        Put(s, key, p, pub.items, CarryOver(s.details[key], s.status[key], pub.items, init, true, |s.details[key]|))
  }

  /** The store without the entry of `key`. */
  function Dropped(s: Store, key: Path): (r: Store)
    requires Consistent(s)
    ensures Consistent(r)
    ensures r.pendingResult == s.pendingResult
    ensures r.params - {key} == s.params - {key}
    ensures r.details - {key} == s.details - {key}
    ensures r.status - {key} == s.status - {key}
    ensures key !in r.params && key !in r.details && key !in r.status
  {
    s.(params := s.params - {key}, details := s.details - {key}, status := s.status - {key})
  }

  /** The store with the entry of `key` replaced by the given one. */
  function Put(s: Store, key: Path, p: Params, items: seq<TestItem>, status: seq<TestResult>): (r: Store)
    requires Consistent(s) && EntryConsistent(items, status)
    ensures Consistent(r)
    ensures r.pendingResult == s.pendingResult
    ensures r.params - {key} == s.params - {key}
    ensures r.details - {key} == s.details - {key}
    ensures r.status - {key} == s.status - {key}
    ensures key in r.params && r.params[key] == p && r.details[key] == items && r.status[key] == status
  {
    s.(params := s.params[key := p], details := s.details[key := items], status := s.status[key := status])
  }

  /**
   * Entry `j` of the status list after a non-empty publish: Invalid for an item with an error,
   * Undetermined for a fresh generation or an item no old item has the id of, its initial entry
   * when no old item has `j` as its first eligible match (a later duplicate of an id), and
   * otherwise the status of the last old item whose first eligible match is `j`.
   */
  lemma PublishedStatusAt(s: Store, key: Path, pub: Publish, j: nat)
    requires Consistent(s) && pub.items != [] && j < |pub.items|
    ensures var r := Updated(s, key, pub);
      && (HasError(pub.items[j]) ==> r.status[key][j] == Fresh(Invalid))
      && (!HasError(pub.items[j]) && (key !in s.params || !SameProject(s.params[key], pub)) ==>
            r.status[key][j] == Fresh(Undetermined))
      && (!HasError(pub.items[j]) && key in s.params &&
          (forall i :: 0 <= i < |s.details[key]| ==> s.details[key][i].id != pub.items[j].id) ==>
            r.status[key][j] == Fresh(Undetermined))
      && (key in s.params && SameProject(s.params[key], pub) ==>
            forall i :: 0 <= i < |s.details[key]| && SendsTo(s.details[key], pub.items, true, i, j) &&
                        NoSenderIn(s.details[key], pub.items, true, j, i + 1, |s.details[key]|) ==>
              r.status[key][j] == s.status[key][i])
      && (key in s.params && SameProject(s.params[key], pub) &&
          NoSenderIn(s.details[key], pub.items, true, j, 0, |s.details[key]|) ==>
            r.status[key][j] == InitialStatus(pub.items, true)[j])
  {
    var init := InitialStatus(pub.items, true);
    if key in s.params && SameProject(s.params[key], pub) {
      if NoSenderIn(s.details[key], pub.items, true, j, 0, |s.details[key]|) {
        CarryOverUnsent(s.details[key], s.status[key], pub.items, init, true, |s.details[key]|, j);
      }
      forall i | 0 <= i < |s.details[key]| && SendsTo(s.details[key], pub.items, true, i, j) &&
                 NoSenderIn(s.details[key], pub.items, true, j, i + 1, |s.details[key]|)
        ensures Updated(s, key, pub).status[key][j] == s.status[key][i]
      {
        CarryOverLastSender(s.details[key], s.status[key], pub.items, init, true, |s.details[key]|, i, j);
      }
      if HasError(pub.items[j]) ||
         forall i :: 0 <= i < |s.details[key]| ==> s.details[key][i].id != pub.items[j].id {
        CarryOverKeepsUnmatched(s.details[key], s.status[key], pub.items, init, true, j);
      }
    }
  }

  /**
   * With unique ids in the old and the new list and the same project identity, every new item
   * without an error takes over the status of the old item with its id, wherever it moved.
   */
  lemma RepublishKeepsStatusById(s: Store, key: Path, pub: Publish, i: nat, j: nat)
    requires Consistent(s) && key in s.params && SameProject(s.params[key], pub)
    requires UniqueIds(s.details[key]) && UniqueIds(pub.items)
    requires i < |s.details[key]| && j < |pub.items|
    requires s.details[key][i].id == pub.items[j].id && !HasError(pub.items[j])
    ensures Updated(s, key, pub).status[key][j] == s.status[key][i]
  {
    CarryOverFollowsId(s.details[key], s.status[key], pub.items, InitialStatus(pub.items, true), true, i, j);
  }

  /** Two items A (id "1") and B (id "2") with statuses Passed and Failed, republished as [B, A]. */
  lemma ReorderedRepublishExample(s: Store, key: Path, a: TestItem, b: TestItem, pub: Publish)
    requires Consistent(s) && key in s.params && SameProject(s.params[key], pub)
    requires a.id == "1" && b.id == "2" && !HasError(a) && !HasError(b)
    requires s.details[key] == [a, b] && s.status[key] == [Fresh(Passed), Fresh(Failed)]
    requires pub.items == [b, a]
    ensures Updated(s, key, pub).status[key] == [Fresh(Failed), Fresh(Passed)]
  {
    RepublishKeepsStatusById(s, key, pub, 0, 1);
    RepublishKeepsStatusById(s, key, pub, 1, 0);
  }

  /** The same scenario with a different package name: every status starts over. */
  lemma ChangedPackageResetsExample(s: Store, key: Path, a: TestItem, b: TestItem, pub: Publish)
    requires Consistent(s) && key in s.params && s.params[key].packageName != pub.packageName
    requires !HasError(a) && !HasError(b)
    requires s.details[key] == [a, b] && s.status[key] == [Fresh(Passed), Fresh(Failed)]
    requires pub.items == [b, a]
    ensures Updated(s, key, pub).status[key] == [Fresh(Undetermined), Fresh(Undetermined)]
  {
  }

  /**
   * Error items are skipped only on the new side of the matching: an item first published with
   * an error and then republished without one, under the same id and project, takes over the
   * old Invalid entry, so its annotation still does not start a run.
   */
  lemma FixedItemStaysInvalidExample(s: Store, key: Path, x: TestItem, pub1: Publish, pub2: Publish)
    requires Consistent(s) && key !in s.params
    requires HasError(x) && pub1.items == [x]
    requires pub2.items == [x.(error := None)]
    requires pub2.projectPath == pub1.projectPath && pub2.packagePath == pub1.packagePath
    requires pub2.packageName == pub1.packageName
    ensures var s2 := Updated(Updated(s, key, pub1), key, pub2);
      && s2.details[key] == [x.(error := None)] && !HasError(s2.details[key][0])
      && s2.status[key] == [Fresh(Invalid)]
      && !Navigable(s2.status[key][0].status)
  {
  }

  /** The run request for item `idx` of the file `key`, if the store has enough data. */
  function RequestParams(s: Store, key: Path, idx: nat): (r: Option<RunRequest>)
    requires key in s.params ==> key in s.details && idx < |s.details[key]|
    ensures key !in s.params ==> r.None?
    ensures key in s.params ==> r == BuildRequest(s.params[key], s.details[key][idx])
  {
    if key !in s.params then None else BuildRequest(s.params[key], s.details[key][idx])
  }

  /** What a run request ends in. */
  datatype Admission = AlreadyRunning | VersionMismatch | InsufficientData | Started(request: RunRequest)

  /** A token that passes the version check refers to an item of the stored list. */
  predicate TokenInBounds(s: Store, key: Path, tok: RunToken) {
    key in s.params && key in s.details && s.params[key].version == tok.version ==> tok.idx < |s.details[key]|
  }

  /** The store and the outcome after a click on the run link carrying `tok` (file `key`). */
  function Admit(s: Store, key: Path, tok: RunToken): (r: (Store, Admission))
    requires Consistent(s) && TokenInBounds(s, key, tok)
    ensures Consistent(r.0)
    // One run at a time: while one is in flight nothing changes.
    ensures s.pendingResult ==> r == (s, AlreadyRunning)
    // A token of an older (or unknown) generation is turned down.
    ensures !s.pendingResult && StoredVersion(s, key) != Some(tok.version) ==> r == (s, VersionMismatch)
    // A current token whose request cannot be built changes nothing and starts no run.
    ensures r.1.InsufficientData? <==>
              !s.pendingResult && StoredVersion(s, key) == Some(tok.version) && RequestParams(s, key, tok.idx).None?
    ensures r.1.InsufficientData? ==> r.0 == s
    ensures r.1.Started? <==>
              !s.pendingResult && StoredVersion(s, key) == Some(tok.version) && RequestParams(s, key, tok.idx).Some?
    // An admitted run takes the run lock and changes exactly one entry, to Pending.
    ensures r.1.Started? ==>
              && r.1.request == RequestParams(s, key, tok.idx).value
              && r.0.pendingResult
              && r.0.params == s.params && r.0.details == s.details
              && r.0.status - {key} == s.status - {key}
              && key in r.0.status && |r.0.status[key]| == |s.status[key]|
              && r.0.status[key][tok.idx] == s.status[key][tok.idx].(status := Pending)
              && !Navigable(r.0.status[key][tok.idx].status)
              && forall j :: 0 <= j < |s.status[key]| && j != tok.idx ==> r.0.status[key][j] == s.status[key][j]
  {
    if s.pendingResult then (s, AlreadyRunning)
    else if StoredVersion(s, key) != Some(tok.version) then (s, VersionMismatch)
    else
      match RequestParams(s, key, tok.idx)
      case None => (s, InsufficientData)
      case Some(request) =>
        var xs := s.status[key];
        (s.(pendingResult := true, status := s.status[key := xs[tok.idx := xs[tok.idx].(status := Pending)]]),
         Started(request))
  }

  /** The store after the result of the run for `(key, idx, version)` has arrived. */
  function WithResult(s: Store, key: Path, idx: nat, version: int, result: TestResult): (r: Store)
    requires Consistent(s) && key in s.params
    ensures Consistent(r)
    ensures !r.pendingResult
    ensures r.params == s.params && r.details == s.details
    ensures r.status - {key} == s.status - {key} && key in r.status
    // Current generation: the result goes into slot `idx` and nowhere else.
    ensures s.params[key].version == version && idx < |s.status[key]| ==> r.status[key] == s.status[key][idx := result]
    // Current version but no slot `idx` (a later generation reused the version): the write raises
    // after the lock is cleared, so nothing else changes.
    ensures s.params[key].version == version && idx >= |s.status[key]| ==> r == s.(pendingResult := false)
    // Stale result: dropped, and every left-over Pending entry of the file is reset.
    ensures s.params[key].version != version ==>
              && r.status[key] == ResetPending(s.status[key])
              && forall j :: 0 <= j < |r.status[key]| ==> r.status[key][j].status != Pending
  {
    var s1 := s.(pendingResult := false);
    if s.params[key].version == version then
      if idx < |s.status[key]| then s1.(status := s.status[key := s.status[key][idx := result]]) else s1
    else
      s1.(status := s.status[key := ResetPending(s.status[key])])
  }

  /**
   * The failure branch of the worker thread AS WRITTEN: clear the run lock, then mark slot
   * `idx` of the file's CURRENT lists Invalid with the crash message, whatever generation the
   * run belonged to. Without an entry or with `idx` out of range the indexing raises after the
   * lock is cleared, so nothing else changes.
   */
  function WithFailureAsWritten(s: Store, key: Path, idx: nat): (r: Store)
    requires Consistent(s)
    ensures Consistent(r)
    ensures !r.pendingResult && r.params == s.params
    ensures key in s.status && idx < |s.status[key]| ==>
              && r.status == s.status[key := s.status[key][idx := s.status[key][idx].(status := Invalid)]]
              && r.details == s.details[key := s.details[key][idx := s.details[key][idx].(error := Some(CrashMessage))]]
    ensures !(key in s.status && idx < |s.status[key]|) ==> r == s.(pendingResult := false)
  {
    if key in s.status && idx < |s.status[key]| then
      var xs := s.status[key];
      var ds := s.details[key];
      s.(pendingResult := false,
         status := s.status[key := xs[idx := xs[idx].(status := Invalid)]],
         details := s.details[key := ds[idx := ds[idx].(error := Some(CrashMessage))]])
    else
      s.(pendingResult := false)
  }

  /**
   * The failure branch with the version check `on_result` makes: in the run's own generation
   * mark slot `idx` Invalid with the crash message; in a later generation touch no item and
   * reset the left-over Pending entries instead.
   */
  function WithFailure(s: Store, key: Path, idx: nat, version: int): (r: Store)
    requires Consistent(s)
    ensures Consistent(r)
    ensures !r.pendingResult && r.params == s.params
    ensures key in s.params && s.params[key].version == version ==> r == WithFailureAsWritten(s, key, idx)
    ensures key in s.params && s.params[key].version != version ==>
              && r.details == s.details
              && r.status == s.status[key := ResetPending(s.status[key])]
    ensures key !in s.params ==> r == s.(pendingResult := false)
  {
    if key in s.params && s.params[key].version == version && idx < |s.status[key]| then
      WithFailureAsWritten(s, key, idx)
    else if key in s.params && s.params[key].version != version then
      s.(pendingResult := false, status := s.status[key := ResetPending(s.status[key])])
    else
      s.(pendingResult := false)
  }

  /** A run that completes before any republish writes exactly its own slot and releases the lock. */
  lemma AdmittedRunCompletes(s: Store, key: Path, tok: RunToken, result: TestResult)
    requires Consistent(s) && TokenInBounds(s, key, tok)
    requires Admit(s, key, tok).1.Started?
    ensures var s1 := Admit(s, key, tok).0;
      WithResult(s1, key, tok.idx, tok.version, result) ==
        s.(status := s.status[key := s.status[key][tok.idx := result]])
  {
    var s1 := Admit(s, key, tok).0;
    assert s1.status[key][tok.idx := result] == s.status[key][tok.idx := result];
  }

  /**
   * A run admitted at version V, a republish of the same project that moves the file past V, and
   * then the run's result: the result is dropped, the lock is free and nothing is left Pending.
   */
  lemma StaleResultDiscarded(s: Store, key: Path, tok: RunToken, pub: Publish, result: TestResult)
    requires Consistent(s) && TokenInBounds(s, key, tok)
    requires Admit(s, key, tok).1.Started?
    requires pub.items != [] && SameProject(s.params[key], pub) && pub.version != Some(tok.version)
    ensures var s2 := Updated(Admit(s, key, tok).0, key, pub);
      var s3 := WithResult(s2, key, tok.idx, tok.version, result);
      && !s3.pendingResult
      && s3.status[key] == ResetPending(s2.status[key])
      && forall j :: 0 <= j < |s3.status[key]| ==> s3.status[key][j].status != Pending
  {
  }

  /**
   * The failure branch as written, after a republish that swapped two items: the item the run
   * was for stays Pending with the lock released, and the OTHER item is marked crashed.
   */
  lemma StaleFailureAsWritten(s: Store, key: Path, a: TestItem, b: TestItem, pub: Publish)
    requires Consistent(s) && !s.pendingResult && key in s.params && s.params[key].version == 0
    requires s.params[key].projectPath != ""
    requires a.id == "a" && b.id == "b" && !HasError(a) && !HasError(b)
    requires b.code == Some("@test true") && b.codeRange.Some?
    requires s.details[key] == [a, b] && s.status[key] == [Fresh(Undetermined), Fresh(Undetermined)]
    requires pub.items == [b, a] && pub.version.None? && SameProject(s.params[key], pub)
    ensures var tok := RunToken(s.params[key].uri, 1, 0);
      var s1 := Admit(s, key, tok);
      var s2 := Updated(s1.0, key, pub);
      var s3 := WithFailureAsWritten(s2, key, tok.idx);
      && s1.1.Started?
      && !s3.pendingResult
      && s3.status[key][0].status == Pending && s3.details[key][0] == b
      && s3.status[key][1].status == Invalid && s3.details[key][1] == a.(error := Some(CrashMessage))
  {
  }

  /**
   * The corrected failure branch in the same scenario: no item is marked crashed and no entry is
   * left Pending once the lock is released.
   */
  lemma StaleFailureCorrected(s: Store, key: Path, a: TestItem, b: TestItem, pub: Publish)
    requires Consistent(s) && !s.pendingResult && key in s.params && s.params[key].version == 0
    requires s.params[key].projectPath != ""
    requires a.id == "a" && b.id == "b" && !HasError(a) && !HasError(b)
    requires b.code == Some("@test true") && b.codeRange.Some?
    requires s.details[key] == [a, b] && s.status[key] == [Fresh(Undetermined), Fresh(Undetermined)]
    requires pub.items == [b, a] && pub.version.None? && SameProject(s.params[key], pub)
    ensures var tok := RunToken(s.params[key].uri, 1, 0);
      var s1 := Admit(s, key, tok);
      var s2 := Updated(s1.0, key, pub);
      var s3 := WithFailure(s2, key, tok.idx, tok.version);
      && s1.1.Started?
      && !s3.pendingResult
      && s3.details[key] == [b, a]
      && forall j :: 0 <= j < |s3.status[key]| ==> s3.status[key][j].status != Pending
  {
  }

  /**
   * Whatever the outcome of a run (a result of any generation, a crash with or without the
   * version check), the lock is free afterwards: the next click on any run link is not turned
   * down as already running.
   */
  lemma RunLockAlwaysReleased(s: Store, key: Path, idx: nat, version: int, result: TestResult, key2: Path, tok: RunToken)
    requires Consistent(s) && key in s.params && TokenInBounds(s, key2, tok)
    ensures !Admit(WithResult(s, key, idx, version, result), key2, tok).1.AlreadyRunning?
    ensures !Admit(WithFailure(s, key, idx, version), key2, tok).1.AlreadyRunning?
    ensures !Admit(WithFailureAsWritten(s, key, idx), key2, tok).1.AlreadyRunning?
  {
  }

  /**
   * Versions can repeat: a republish of the same project without a version counts up from the
   * stored one, but a republish of another package without a version starts again at 0. An
   * earlier run's token then passes the version check again. With one item left there is no
   * slot 1 and the callback only clears the lock; with two items the earlier run's result is
   * written over the unrelated second item.
   */
  lemma VersionCollisionExample(s: Store, key: Path, a: TestItem, b: TestItem, c: TestItem, d: TestItem,
                                pub1: Publish, pub2: Publish, result: TestResult)
    requires Consistent(s) && !s.pendingResult && key in s.params && s.params[key].version == 0
    requires s.params[key].projectPath != ""
    requires !HasError(a) && !HasError(b) && !HasError(c) && !HasError(d)
    requires b.code == Some("@test true") && b.codeRange.Some?
    requires s.details[key] == [a, b] && s.status[key] == [Fresh(Undetermined), Fresh(Undetermined)]
    requires pub1.items == [a, b] && pub1.version.None? && SameProject(s.params[key], pub1)
    requires pub2.version.None? && pub2.packageName != s.params[key].packageName
    ensures var tok := RunToken(s.params[key].uri, 1, 0);
      var s1 := Admit(s, key, tok);
      var s2 := Updated(s1.0, key, pub1);
      var one := Updated(s2, key, pub2.(items := [c]));
      var two := Updated(s2, key, pub2.(items := [c, d]));
      && s1.1.Started?
      && s2.params[key].version == 1
      && one.params[key].version == 0 && two.params[key].version == 0
      && WithResult(one, key, tok.idx, tok.version, result) == one.(pendingResult := false)
      && WithResult(two, key, tok.idx, tok.version, result).status[key] == [Fresh(Undetermined), result]
      && WithResult(two, key, tok.idx, tok.version, result).details[key] == [c, d]
  {
  }

  /**
   * The store of one window. `keyOf` stands for taking the file path of a URI; it is a
   * parameter, so everything proved holds for any such mapping.
   */
  class TestItemStorage {
    const keyOf: Uri -> Path
    var pendingResult: bool
    var testItemParams: map<Path, Params>
    var testItemDetails: map<Path, seq<TestItem>>
    var testItemStatus: map<Path, seq<TestResult>>

    function Abs(): Store
      reads this
    {
      Store(pendingResult, testItemParams, testItemDetails, testItemStatus)
    }

    ghost predicate Valid()
      reads this
    {
      Consistent(Abs())
    }

    constructor (keyOf: Uri -> Path)
      ensures Valid() && this.keyOf == keyOf
      ensures Abs() == Store(false, map[], map[], map[])
    {
      this.keyOf := keyOf;
      pendingResult := false;
      testItemParams := map[];
      testItemDetails := map[];
      testItemStatus := map[];
    }

    /** Handles a publish notification for `uri`. */
    method Update(uri: Uri, pub: Publish)
      requires Valid()
      modifies this
      ensures Valid()
      ensures Abs() == Updated(old(Abs()), keyOf(uri), pub)
    {
      var key := keyOf(uri);
      if pub.items == [] {
        // Delete the previously stored entry, if there was one.
        if key in testItemParams {
          testItemParams := testItemParams - {key};
          testItemDetails := testItemDetails - {key};
          testItemStatus := testItemStatus - {key};
        }
        return;
      }
      StoreGeneration(key, pub);
    }

    /** The rest of `Update`: new parameters or carried-over statuses, then the new lists. */
    method StoreGeneration(key: Path, pub: Publish)
      requires Valid() && pub.items != []
      modifies this
      ensures Abs() == Updated(old(Abs()), key, pub)
    {
      ghost var s0 := Abs();
      var status := InitialStatus(pub.items, true);
      var p;
      if key !in testItemParams || !SameProject(testItemParams[key], pub) {
        p := Params(pub.uri, pub.version.GetOr(0), pub.projectPath, pub.packagePath, pub.packageName);
      } else {
        var q := testItemParams[key];
        p := q.(uri := pub.uri, version := pub.version.GetOr(q.version + 1));
        status := CarryStatusOver(testItemDetails[key], testItemStatus[key], pub.items, status, true);
      }
      assert Updated(s0, key, pub) == Put(s0, key, p, pub.items, status);
      testItemParams := testItemParams[key := p];
      testItemDetails := testItemDetails[key := pub.items];
      testItemStatus := testItemStatus[key := status];
    }

    /** Handles a click on a run link: admission, version check, request, Pending mark. */
    method RunTestItem(tok: RunToken) returns (outcome: Admission)
      requires Valid() && TokenInBounds(Abs(), keyOf(tok.uri), tok)
      modifies this
      ensures Valid()
      ensures (Abs(), outcome) == Admit(old(Abs()), keyOf(tok.uri), tok)
    {
      if pendingResult {
        return AlreadyRunning;
      }
      var key := keyOf(tok.uri);
      if StoredVersion(Abs(), key) != Some(tok.version) {
        return VersionMismatch;
      }
      var request := RequestParams(Abs(), key, tok.idx);
      if request.None? {
        return InsufficientData;
      }
      pendingResult := true;
      var xs := testItemStatus[key];
      testItemStatus := testItemStatus[key := xs[tok.idx := xs[tok.idx].(status := Pending)]];
      return Started(request.value);
    }

    /** The callback with the result of the run for `(uri, idx, version)`. */
    method OnResult(uri: Uri, idx: nat, version: int, result: TestResult)
      requires Valid() && keyOf(uri) in testItemParams
      modifies this
      ensures Valid()
      ensures Abs() == WithResult(old(Abs()), keyOf(uri), idx, version, result)
    {
      pendingResult := false;
      var key := keyOf(uri);
      if testItemParams[key].version == version {
        if idx < |testItemStatus[key]| {
          testItemStatus := testItemStatus[key := testItemStatus[key][idx := result]];
        }
      } else {
        var reset := ClearPending(testItemStatus[key]);
        testItemStatus := testItemStatus[key := reset];
      }
    }

    /** The failure branch of the worker thread, as the source has it. */
    method OnRunFailedAsWritten(uri: Uri, idx: nat)
      requires Valid()
      modifies this
      ensures Valid()
      ensures Abs() == WithFailureAsWritten(old(Abs()), keyOf(uri), idx)
    {
      pendingResult := false;
      var key := keyOf(uri);
      if key in testItemStatus && idx < |testItemStatus[key]| {
        var xs := testItemStatus[key];
        testItemStatus := testItemStatus[key := xs[idx := xs[idx].(status := Invalid)]];
        var ds := testItemDetails[key];
        testItemDetails := testItemDetails[key := ds[idx := ds[idx].(error := Some(CrashMessage))]];
      }
    }

    /** The failure branch with the version check of `on_result`. */
    method OnRunFailed(uri: Uri, idx: nat, version: int)
      requires Valid()
      modifies this
      ensures Valid()
      ensures Abs() == WithFailure(old(Abs()), keyOf(uri), idx, version)
    {
      var key := keyOf(uri);
      if key in testItemParams && testItemParams[key].version == version && idx < |testItemStatus[key]| {
        OnRunFailedAsWritten(uri, idx);
      } else if key in testItemParams && testItemParams[key].version != version {
        pendingResult := false;
        var reset := ClearPending(testItemStatus[key]);
        testItemStatus := testItemStatus[key := reset];
      } else {
        pendingResult := false;
      }
    }
  }
}
