/**
 * Logic shared by the two test-item stores: the initial status list of a publish, the
 * carry-over of old statuses by first id match, the reset of left-over Pending entries and
 * the construction of the run request.
 */
module Reconcile {
  import opened Optional
  import opened TestItemTypes

  /**
   * `item` may take over the status of an old item with this `id`. The published-items store
   * skips new items that carry an error; the variant store does not.
   */
  predicate Eligible(item: TestItem, id: string, skipErrors: bool) {
    item.id == id && !(skipErrors && HasError(item))
  }

  /** Index of the first new item an old item with this `id` is matched with, if any. */
  function FirstMatch(id: string, items: seq<TestItem>, skipErrors: bool): (r: Option<nat>)
    ensures r.Some? ==> r.value < |items| && Eligible(items[r.value], id, skipErrors)
    ensures r.Some? ==> forall j :: 0 <= j < r.value ==> !Eligible(items[j], id, skipErrors)
    ensures r.None? ==> forall j :: 0 <= j < |items| ==> !Eligible(items[j], id, skipErrors)
  {
    if items == [] then None
    else if Eligible(items[0], id, skipErrors) then Some(0)
    else
      match FirstMatch(id, items[1..], skipErrors)
      case None => None
      case Some(j) => Some(j + 1)
  }

  /** The status list a publish starts from: Invalid for error items when `markErrors`, else Undetermined. */
  function InitialStatus(items: seq<TestItem>, markErrors: bool): (r: seq<TestResult>)
    ensures |r| == |items|
    ensures forall j :: 0 <= j < |r| ==> r[j].message.None? && r[j].duration.None?
    ensures forall j :: 0 <= j < |r| ==> (r[j].status == Invalid <==> markErrors && HasError(items[j]))
    ensures forall j :: 0 <= j < |r| ==> r[j].status in {Invalid, Undetermined}
  {
    seq(|items|, j requires 0 <= j < |items| =>
      TestResult(if markErrors && HasError(items[j]) then Invalid else Undetermined, None, None))
  }

  /**
   * The status list after the first `n` old items, in old order, have each copied their
   * status into the first new item they match; a later old item overwrites an earlier one.
   */
  function CarryOver(oldItems: seq<TestItem>, oldStatus: seq<TestResult>, newItems: seq<TestItem>,
                     init: seq<TestResult>, skipErrors: bool, n: nat): (r: seq<TestResult>)
    requires n <= |oldItems| == |oldStatus|
    requires |init| == |newItems|
    ensures |r| == |newItems|
    decreases n
  {
    if n == 0 then init
    else
      var prev := CarryOver(oldItems, oldStatus, newItems, init, skipErrors, n - 1);
      match FirstMatch(oldItems[n - 1].id, newItems, skipErrors)
      case None => prev
      case Some(j) => prev[j := oldStatus[n - 1]]
  }

  /** Old item `i` is matched with new item `j`. */
  predicate SendsTo(oldItems: seq<TestItem>, newItems: seq<TestItem>, skipErrors: bool, i: nat, j: nat)
    requires i < |oldItems|
  {
    FirstMatch(oldItems[i].id, newItems, skipErrors) == Some(j)
  }

  /** No old item with index in `[from, n)` is matched with new item `j`. */
  ghost predicate NoSenderIn(oldItems: seq<TestItem>, newItems: seq<TestItem>, skipErrors: bool, j: nat, from: nat, n: nat)
    requires n <= |oldItems|
  {
    forall i :: from <= i < n ==> !SendsTo(oldItems, newItems, skipErrors, i, j)
  }

  /** Entry `j` keeps its initial value when no old item is matched with `j`. */
  lemma {:induction false} CarryOverUnsent(oldItems: seq<TestItem>, oldStatus: seq<TestResult>, newItems: seq<TestItem>,
                                          init: seq<TestResult>, skipErrors: bool, n: nat, j: nat)
    requires n <= |oldItems| == |oldStatus|
    requires |init| == |newItems| && j < |newItems|
    requires NoSenderIn(oldItems, newItems, skipErrors, j, 0, n)
    ensures CarryOver(oldItems, oldStatus, newItems, init, skipErrors, n)[j] == init[j]
  {
    if n > 0 {
      assert !SendsTo(oldItems, newItems, skipErrors, n - 1, j);
      CarryOverUnsent(oldItems, oldStatus, newItems, init, skipErrors, n - 1, j);
    }
  }

  /** Entry `j` holds the status of the LAST old item matched with `j`. */
  lemma {:induction false} CarryOverLastSender(oldItems: seq<TestItem>, oldStatus: seq<TestResult>, newItems: seq<TestItem>,
                                              init: seq<TestResult>, skipErrors: bool, n: nat, i: nat, j: nat)
    requires n <= |oldItems| == |oldStatus|
    requires |init| == |newItems| && j < |newItems|
    requires i < n && SendsTo(oldItems, newItems, skipErrors, i, j)
    requires NoSenderIn(oldItems, newItems, skipErrors, j, i + 1, n)
    ensures CarryOver(oldItems, oldStatus, newItems, init, skipErrors, n)[j] == oldStatus[i]
  {
    if i < n - 1 {
      assert !SendsTo(oldItems, newItems, skipErrors, n - 1, j);
      CarryOverLastSender(oldItems, oldStatus, newItems, init, skipErrors, n - 1, i, j);
    }
  }

  /** No two items of the list share an id. */
  ghost predicate UniqueIds(items: seq<TestItem>) {
    forall a, b :: 0 <= a < b < |items| ==> items[a].id != items[b].id
  }

  /** With unique ids on both sides, an eligible new item takes the status of the old item with its id. */
  lemma CarryOverFollowsId(oldItems: seq<TestItem>, oldStatus: seq<TestResult>, newItems: seq<TestItem>,
                           init: seq<TestResult>, skipErrors: bool, i: nat, j: nat)
    requires |oldItems| == |oldStatus| && |init| == |newItems|
    requires UniqueIds(oldItems) && UniqueIds(newItems)
    requires i < |oldItems| && j < |newItems|
    requires Eligible(newItems[j], oldItems[i].id, skipErrors)
    ensures CarryOver(oldItems, oldStatus, newItems, init, skipErrors, |oldItems|)[j] == oldStatus[i]
  {
    assert SendsTo(oldItems, newItems, skipErrors, i, j);
    forall i' | i < i' < |oldItems|
      ensures !SendsTo(oldItems, newItems, skipErrors, i', j)
    {
      assert oldItems[i].id != oldItems[i'].id;
    }
    CarryOverLastSender(oldItems, oldStatus, newItems, init, skipErrors, |oldItems|, i, j);
  }

  /** A new item that no old item can be matched with keeps its initial entry. */
  lemma CarryOverKeepsUnmatched(oldItems: seq<TestItem>, oldStatus: seq<TestResult>, newItems: seq<TestItem>,
                                init: seq<TestResult>, skipErrors: bool, j: nat)
    requires |oldItems| == |oldStatus| && |init| == |newItems| && j < |newItems|
    requires forall i :: 0 <= i < |oldItems| ==> !Eligible(newItems[j], oldItems[i].id, skipErrors)
    ensures CarryOver(oldItems, oldStatus, newItems, init, skipErrors, |oldItems|)[j] == init[j]
  {
    CarryOverUnsent(oldItems, oldStatus, newItems, init, skipErrors, |oldItems|, j);
  }

  /** The nested matching loop of `update`: fills the status list of a republish. */
  method CarryStatusOver(oldItems: seq<TestItem>, oldStatus: seq<TestResult>, newItems: seq<TestItem>,
                         init: seq<TestResult>, skipErrors: bool) returns (status: seq<TestResult>)
    requires |oldItems| == |oldStatus| && |init| == |newItems|
    ensures status == CarryOver(oldItems, oldStatus, newItems, init, skipErrors, |oldItems|)
  {
    status := init;
    var oldIdx := 0;
    while oldIdx < |oldItems|
      invariant oldIdx <= |oldItems|
      invariant status == CarryOver(oldItems, oldStatus, newItems, init, skipErrors, oldIdx)
    {
      var id := oldItems[oldIdx].id;
      var newIdx := 0;
      while newIdx < |newItems|
        invariant newIdx <= |newItems|
        invariant status == CarryOver(oldItems, oldStatus, newItems, init, skipErrors, oldIdx)
        invariant forall j :: 0 <= j < newIdx ==> !Eligible(newItems[j], id, skipErrors)
      {
        if skipErrors && HasError(newItems[newIdx]) {
          newIdx := newIdx + 1;
          continue;
        }
        if id == newItems[newIdx].id {
          // Copy the old status into the new status list for this test item.
          status := status[newIdx := oldStatus[oldIdx]];
          break;
        }
        newIdx := newIdx + 1;
      }
      oldIdx := oldIdx + 1;
    }
  }

  /** One entry after the stale-result cleanup. */
  function ResetEntry(e: TestResult): TestResult {
    if e.status == Pending then e.(status := Undetermined) else e
  }

  /** The status list with every Pending entry reset to Undetermined. */
  function ResetPending(xs: seq<TestResult>): (r: seq<TestResult>)
    ensures |r| == |xs|
    ensures forall i :: 0 <= i < |xs| ==> r[i].status != Pending
    ensures forall i :: 0 <= i < |xs| && xs[i].status != Pending ==> r[i] == xs[i]
    ensures forall i :: 0 <= i < |xs| && xs[i].status == Pending ==>
              r[i].status == Undetermined && r[i].message == xs[i].message && r[i].duration == xs[i].duration
  {
    if xs == [] then [] else [ResetEntry(xs[0])] + ResetPending(xs[1..])
  }

  /** The loop of the stale branch of `on_result`, rewriting Pending entries one by one. */
  method ClearPending(xs: seq<TestResult>) returns (ys: seq<TestResult>)
    ensures ys == ResetPending(xs)
  {
    ys := xs;
    var i := 0;
    while i < |ys|
      invariant i <= |ys| == |xs|
      invariant forall j :: 0 <= j < i ==> ys[j] == ResetPending(xs)[j]
      invariant forall j :: i <= j < |ys| ==> ys[j] == xs[j]
    {
      if ys[i].status == Pending {
        ys := ys[i := ys[i].(status := Undetermined)];
      }
      i := i + 1;
    }
  }

  /**
   * The run request for `item` under the stored parameters `p`: none without a code range,
   * without code, or when project path, package path and package name are all empty.
   */
  function BuildRequest(p: Params, item: TestItem): (r: Option<RunRequest>)
    ensures r.Some? <==>
              && item.codeRange.Some?
              && item.code.Some? && item.code.value != ""
              && (p.projectPath != "" || p.packagePath != "" || p.packageName != "")
    ensures r.Some? ==>
              var start := item.codeRange.value.start;
              && r.value.line == (if start.character == 0 then start.line - 1 else start.line)
              && r.value.column == start.character
              && (r.value.useDefaultUsings <==> item.optionDefaultImports != Some(false))
              && r.value.code == item.code.value
              && r.value.name == item.itemLabel
              && r.value.uri == p.uri
              && r.value.packageName == p.packageName
              && r.value.projectPath == p.projectPath
              && r.value.packagePath == p.packagePath
  {
    if item.codeRange.None? then None
    else if item.code.None? || item.code.value == "" then None
    else if p.projectPath == "" && p.packagePath == "" && p.packageName == "" then None
    else
      var start := item.codeRange.value.start;
      var line := if start.character == 0 then start.line - 1 else start.line;
      Some(RunRequest(p.uri, item.itemLabel, p.packageName, item.optionDefaultImports != Some(false),
                      line, start.character, item.code.value, p.projectPath, p.packagePath))
  }
}
