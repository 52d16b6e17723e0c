/**
 * The variant test-item store of testrunner/testitems.py, a revision the plugin does not load.
 * It keeps the published test errors in a fourth map beside the items, starts every item
 * Undetermined, matches old and new items by id without skipping any, returns silently when a
 * run lacks data and, on a crashed run, changes only the status entry.
 */
module VariantStore {
  import opened Optional
  import opened TestItemTypes
  import opened Reconcile

  /** The payload of a publish notification of this revision. */
  datatype Publish = Publish(
    uri: Uri,
    version: Option<int>,
    projectPath: string,
    packagePath: string,
    packageName: string,
    items: seq<TestItem>,
    errors: seq<TestError>)

  datatype Store = Store(
    pendingResult: bool,
    params: map<Path, Params>,
    details: map<Path, seq<TestItem>>,
    errors: map<Path, seq<TestError>>,
    status: map<Path, seq<TestResult>>)

  /**
   * The four maps share one key set, every status list runs parallel to its item list, and an
   * entry holds at least one item or one error.
   */
  ghost predicate Consistent(s: Store) {
    && s.details.Keys == s.params.Keys
    && s.errors.Keys == s.params.Keys
    && s.status.Keys == s.params.Keys
    && forall k :: k in s.params ==> EntryConsistent(s.details[k], s.errors[k], s.status[k])
  }

  /** One file's entry: status parallel to the items, and at least one item or one error. */
  predicate EntryConsistent(items: seq<TestItem>, errors: seq<TestError>, status: seq<TestResult>) {
    |items| == |status| && (|items| > 0 || |errors| > 0)
  }

  predicate SameProject(p: Params, pub: Publish) {
    p.projectPath == pub.projectPath && p.packagePath == pub.packagePath && p.packageName == pub.packageName
  }

  /** The version stored for a file, if it has an entry. */
  function StoredVersion(s: Store, key: Path): (r: Option<int>)
    ensures r.Some? <==> key in s.params
    ensures r.Some? ==> r.value == s.params[key].version
  {
    if key in s.params then Some(s.params[key].version) else None
  }

  /** The store after a publish notification for the file `key`. */
  function Updated(s: Store, key: Path, pub: Publish): (r: Store)
    requires Consistent(s)
    ensures Consistent(r)
    ensures r.pendingResult == s.pendingResult
    ensures r.params - {key} == s.params - {key}
    ensures r.details - {key} == s.details - {key}
    ensures r.errors - {key} == s.errors - {key}
    ensures r.status - {key} == s.status - {key}
    ensures pub.items != [] || pub.errors != [] ==> key in r.params
  {
    if pub.items == [] && pub.errors == [] then
      if key in s.params then Dropped(s, key) else s
    else
      var init := InitialStatus(pub.items, false);
      if key !in s.params || !SameProject(s.params[key], pub) then
        var p := Params(pub.uri, pub.version.GetOr(0), pub.projectPath, pub.packagePath, pub.packageName);
        Put(s, key, p, pub.items, pub.errors, init)
      else
        var prev := s.params[key];
        var p := prev.(uri := pub.uri, version := pub.version.GetOr(prev.version + 1));
        Put(s, key, p, pub.items, pub.errors,
            CarryOver(s.details[key], s.status[key], pub.items, init, false, |s.details[key]|))
  }

  /** The entry of `key` after a publish: removed, a fresh generation, or carried over. */
  lemma UpdatedEntry(s: Store, key: Path, pub: Publish)
    requires Consistent(s)
    ensures var r := Updated(s, key, pub);
      // Only a publish without items AND without errors removes the entry; a no-op without one.
      && (pub.items == [] && pub.errors == [] ==>
            key !in r.params && key !in r.details && key !in r.errors && key !in r.status)
      && (pub.items == [] && pub.errors == [] && key !in s.params ==> r == s)
      // Otherwise items and errors are stored as published; errors never get a status entry.
      && (pub.items != [] || pub.errors != [] ==>
            && key in r.params
            && r.details[key] == pub.items && r.errors[key] == pub.errors
            && |r.status[key]| == |pub.items|)
      // A new file or a changed project identity starts a fresh generation, all Undetermined.
      && ((pub.items != [] || pub.errors != []) && (key !in s.params || !SameProject(s.params[key], pub)) ==>
            && r.params[key] == Params(pub.uri, pub.version.GetOr(0), pub.projectPath, pub.packagePath, pub.packageName)
            && r.status[key] == InitialStatus(pub.items, false))
      // The same project identity keeps the entry: new uri, next version, statuses carried over by id.
      && ((pub.items != [] || pub.errors != []) && key in s.params && SameProject(s.params[key], pub) ==>
            && r.params[key] == s.params[key].(uri := pub.uri, version := pub.version.GetOr(s.params[key].version + 1))
            && r.status[key] == CarryOver(s.details[key], s.status[key], pub.items,
                                          InitialStatus(pub.items, false), false, |s.details[key]|))
  {
  }

  /** The store without the entry of `key`. */
  function Dropped(s: Store, key: Path): (r: Store)
    requires Consistent(s)
    ensures Consistent(r)
    ensures r.pendingResult == s.pendingResult
    ensures r.params - {key} == s.params - {key}
    ensures r.details - {key} == s.details - {key}
    ensures r.errors - {key} == s.errors - {key}
    ensures r.status - {key} == s.status - {key}
    ensures key !in r.params && key !in r.details && key !in r.errors && key !in r.status
  {
    s.(params := s.params - {key}, details := s.details - {key}, errors := s.errors - {key},
       status := s.status - {key})
  }

  /** The store with the entry of `key` replaced by the given one. */
  function Put(s: Store, key: Path, p: Params, items: seq<TestItem>, errors: seq<TestError>,
               status: seq<TestResult>): (r: Store)
    requires Consistent(s) && EntryConsistent(items, errors, status)
    ensures Consistent(r)
    ensures r.pendingResult == s.pendingResult
    ensures r.params - {key} == s.params - {key}
    ensures r.details - {key} == s.details - {key}
    ensures r.errors - {key} == s.errors - {key}
    ensures r.status - {key} == s.status - {key}
    ensures key in r.params && r.params[key] == p && r.details[key] == items && r.errors[key] == errors && r.status[key] == status
  {
    s.(params := s.params[key := p], details := s.details[key := items], errors := s.errors[key := errors],
       status := s.status[key := status])
  }

  /**
   * With the same project identity, every new item whose id no old item has starts Undetermined,
   * and with unique ids every new item takes over the status of the old item with its id;
   * items with an error are matched like any other.
   */
  lemma RepublishStatusAt(s: Store, key: Path, pub: Publish, j: nat)
    requires Consistent(s) && key in s.params && SameProject(s.params[key], pub) && j < |pub.items|
    ensures var r := Updated(s, key, pub);
      && ((forall i :: 0 <= i < |s.details[key]| ==> s.details[key][i].id != pub.items[j].id) ==>
            r.status[key][j] == Fresh(Undetermined))
      && (UniqueIds(s.details[key]) && UniqueIds(pub.items) ==>
            forall i :: 0 <= i < |s.details[key]| && s.details[key][i].id == pub.items[j].id ==>
              r.status[key][j] == s.status[key][i])
  {
    var init := InitialStatus(pub.items, false);
    if forall i :: 0 <= i < |s.details[key]| ==> s.details[key][i].id != pub.items[j].id {
      CarryOverKeepsUnmatched(s.details[key], s.status[key], pub.items, init, false, j);
    }
    if UniqueIds(s.details[key]) && UniqueIds(pub.items) {
      forall i | 0 <= i < |s.details[key]| && s.details[key][i].id == pub.items[j].id
        ensures Updated(s, key, pub).status[key][j] == s.status[key][i]
      {
        CarryOverFollowsId(s.details[key], s.status[key], pub.items, init, false, i, j);
      }
    }
  }

  /** The run request for item `idx` of the file `key`, if the store has enough data. */
  function RequestParams(s: Store, key: Path, idx: nat): (r: Option<RunRequest>)
    requires key in s.params ==> key in s.details && idx < |s.details[key]|
    ensures key !in s.params ==> r.None?
    ensures key in s.params ==> r == BuildRequest(s.params[key], s.details[key][idx])
  {
    if key !in s.params then None else BuildRequest(s.params[key], s.details[key][idx])
  }

  /** What a run request ends in; `Ignored` is the silent return when data is missing. */
  datatype Admission = AlreadyRunning | VersionMismatch | Ignored | Started(request: RunRequest)

  predicate TokenInBounds(s: Store, key: Path, tok: RunToken) {
    key in s.params && key in s.details && s.params[key].version == tok.version ==> tok.idx < |s.details[key]|
  }

  /** The store and the outcome after a click on the run link carrying `tok` (file `key`). */
  function Admit(s: Store, key: Path, tok: RunToken): (r: (Store, Admission))
    requires Consistent(s) && TokenInBounds(s, key, tok)
    ensures Consistent(r.0)
    ensures s.pendingResult ==> r == (s, AlreadyRunning)
    ensures !s.pendingResult && StoredVersion(s, key) != Some(tok.version) ==> r == (s, VersionMismatch)
    ensures r.1.Ignored? <==>
              !s.pendingResult && StoredVersion(s, key) == Some(tok.version) && RequestParams(s, key, tok.idx).None?
    ensures r.1.Ignored? ==> r.0 == s
    ensures r.1.Started? <==>
              !s.pendingResult && StoredVersion(s, key) == Some(tok.version) && RequestParams(s, key, tok.idx).Some?
    ensures r.1.Started? ==>
              && r.1.request == RequestParams(s, key, tok.idx).value
              && r.0.pendingResult
              && r.0.params == s.params && r.0.details == s.details && r.0.errors == s.errors
              && r.0.status - {key} == s.status - {key}
              && key in r.0.status && |r.0.status[key]| == |s.status[key]|
              && r.0.status[key][tok.idx] == s.status[key][tok.idx].(status := Pending)
              && forall j :: 0 <= j < |s.status[key]| && j != tok.idx ==> r.0.status[key][j] == s.status[key][j]
  {
    if s.pendingResult then (s, AlreadyRunning)
    else if StoredVersion(s, key) != Some(tok.version) then (s, VersionMismatch)
    else
      match RequestParams(s, key, tok.idx)
      case None => (s, Ignored)
      case Some(request) =>
        var xs := s.status[key];
        (s.(pendingResult := true, status := s.status[key := xs[tok.idx := xs[tok.idx].(status := Pending)]]),
         Started(request))
  }

  /** The store after the result of the run for `(key, idx, version)` has arrived. */
  function WithResult(s: Store, key: Path, idx: nat, version: int, result: TestResult): (r: Store)
    requires Consistent(s) && key in s.params
    ensures Consistent(r)
    ensures !r.pendingResult
    ensures r.params == s.params && r.details == s.details && r.errors == s.errors
    ensures r.status - {key} == s.status - {key} && key in r.status
    // Current generation: the result goes into slot `idx` and nowhere else.
    ensures s.params[key].version == version && idx < |s.status[key]| ==> r.status[key] == s.status[key][idx := result]
    // Current version but no slot `idx` (a later generation reused the version): the write raises
    // after the lock is cleared, so nothing else changes.
    ensures s.params[key].version == version && idx >= |s.status[key]| ==> r == s.(pendingResult := false)
    // Stale result: dropped, and every left-over Pending entry of the file is reset.
    ensures s.params[key].version != version ==>
              && r.status[key] == ResetPending(s.status[key])
              && forall j :: 0 <= j < |r.status[key]| ==> r.status[key][j].status != Pending
  {
    var s1 := s.(pendingResult := false);
    if s.params[key].version == version then
      if idx < |s.status[key]| then s1.(status := s.status[key := s.status[key][idx := result]]) else s1
    else
      s1.(status := s.status[key := ResetPending(s.status[key])])
  }

  /**
   * The failure branch of the worker thread: clear the run lock and mark slot `idx` Invalid;
   * item details and errors are untouched. Without an entry or with `idx` out of range the
   * indexing raises after the lock is cleared, so nothing else changes.
   */
  function WithFailure(s: Store, key: Path, idx: nat): (r: Store)
    requires Consistent(s)
    ensures Consistent(r)
    ensures !r.pendingResult
    ensures r.params == s.params && r.details == s.details && r.errors == s.errors
    ensures key in s.status && idx < |s.status[key]| ==>
              r.status == s.status[key := s.status[key][idx := s.status[key][idx].(status := Invalid)]]
    ensures !(key in s.status && idx < |s.status[key]|) ==> r.status == s.status
  {
    if key in s.status && idx < |s.status[key]| then
      var xs := s.status[key];
      s.(pendingResult := false, status := s.status[key := xs[idx := xs[idx].(status := Invalid)]])
    else
      s.(pendingResult := false)
  }

  /** The store of the variant revision; `keyOf` stands for taking the file path of a URI. */
  class TestItemStorage {
    const keyOf: Uri -> Path
    var pendingResult: bool
    var testItemParams: map<Path, Params>
    var testItemDetails: map<Path, seq<TestItem>>
    var testErrorDetails: map<Path, seq<TestError>>
    var testItemStatus: map<Path, seq<TestResult>>

    function Abs(): Store
      reads this
    {
      Store(pendingResult, testItemParams, testItemDetails, testErrorDetails, testItemStatus)
    }

    ghost predicate Valid()
      reads this
    {
      Consistent(Abs())
    }

    constructor (keyOf: Uri -> Path)
      ensures Valid() && this.keyOf == keyOf
      ensures Abs() == Store(false, map[], map[], map[], map[])
    {
      this.keyOf := keyOf;
      pendingResult := false;
      testItemParams := map[];
      testItemDetails := map[];
      testErrorDetails := map[];
      testItemStatus := map[];
    }

    /** Handles a publish notification for `uri`. */
    method Update(uri: Uri, pub: Publish)
      requires Valid()
      modifies this
      ensures Valid()
      ensures Abs() == Updated(old(Abs()), keyOf(uri), pub)
    {
      var key := keyOf(uri);
      if pub.items == [] && pub.errors == [] {
        // Delete the previously stored entry, if there was one.
        if key in testItemParams {
          testItemParams := testItemParams - {key};
          testItemDetails := testItemDetails - {key};
          testErrorDetails := testErrorDetails - {key};
          testItemStatus := testItemStatus - {key};
        }
        return;
      }
      StoreGeneration(key, pub);
    }

    /** The rest of `Update`: new parameters or carried-over statuses, then the new lists. */
    method StoreGeneration(key: Path, pub: Publish)
      requires Valid() && (pub.items != [] || pub.errors != [])
      modifies this
      ensures Abs() == Updated(old(Abs()), key, pub)
    {
      ghost var s0 := Abs();
      var status := InitialStatus(pub.items, false);
      var p;
      if key !in testItemParams || !SameProject(testItemParams[key], pub) {
        p := Params(pub.uri, pub.version.GetOr(0), pub.projectPath, pub.packagePath, pub.packageName);
      } else {
        var q := testItemParams[key];
        p := q.(uri := pub.uri, version := pub.version.GetOr(q.version + 1));
        status := CarryStatusOver(testItemDetails[key], testItemStatus[key], pub.items, status, false);
      }
      assert Updated(s0, key, pub) == Put(s0, key, p, pub.items, pub.errors, status);
      testItemParams := testItemParams[key := p];
      testItemDetails := testItemDetails[key := pub.items];
      testErrorDetails := testErrorDetails[key := pub.errors];
      testItemStatus := testItemStatus[key := status];
    }

    /** Handles a click on a run link; returns silently when the item cannot be run. */
    method RunTestItem(tok: RunToken) returns (outcome: Admission)
      requires Valid() && TokenInBounds(Abs(), keyOf(tok.uri), tok)
      modifies this
      ensures Valid()
      ensures (Abs(), outcome) == Admit(old(Abs()), keyOf(tok.uri), tok)
    {
      if pendingResult {
        return AlreadyRunning;
      }
      var key := keyOf(tok.uri);
      if StoredVersion(Abs(), key) != Some(tok.version) {
        return VersionMismatch;
      }
      var request := RequestParams(Abs(), key, tok.idx);
      if request.None? {
        return Ignored;
      }
      pendingResult := true;
      var xs := testItemStatus[key];
      testItemStatus := testItemStatus[key := xs[tok.idx := xs[tok.idx].(status := Pending)]];
      return Started(request.value);
    }

    /** The callback with the result of the run for `(uri, idx, version)`. */
    method OnResult(uri: Uri, idx: nat, version: int, result: TestResult)
      requires Valid() && keyOf(uri) in testItemParams
      modifies this
      ensures Valid()
      ensures Abs() == WithResult(old(Abs()), keyOf(uri), idx, version, result)
    {
      pendingResult := false;
      var key := keyOf(uri);
      if testItemParams[key].version == version {
        if idx < |testItemStatus[key]| {
          testItemStatus := testItemStatus[key := testItemStatus[key][idx := result]];
        }
      } else {
        var reset := ClearPending(testItemStatus[key]);
        testItemStatus := testItemStatus[key := reset];
      }
    }

    /** The failure branch of the worker thread. */
    method OnRunFailed(uri: Uri, idx: nat)
      requires Valid()
      modifies this
      ensures Valid()
      ensures Abs() == WithFailure(old(Abs()), keyOf(uri), idx)
    {
      pendingResult := false;
      var key := keyOf(uri);
      if key in testItemStatus && idx < |testItemStatus[key]| {
        var xs := testItemStatus[key];
        testItemStatus := testItemStatus[key := xs[idx := xs[idx].(status := Invalid)]];
      }
    }
  }
}
