/** All-or-nothing execution of a batch: snapshots of everything first, execution in
    order, and on a failure the return to the snapshots. */
module AtomicExecutor {
  import opened Sequences
  import opened Strings
  import opened Djb2

  datatype Item = Item(id: string, subscriptionId: string, operation: string, payload: string)

  datatype ItemResult = ItemResult(id: string, subscriptionId: string, success: bool, error: Option<string>)

  datatype Status = Committed | RolledBack | Failed

  datatype Report = Report(status: Status, items: seq<ItemResult>, totalItems: nat, succeededItems: nat,
                           failedItems: nat, rolledBackItems: nat, rollbackReason: Option<string>)

  /** What the subscriptions' states are; one without an entry does not exist. */
  type Store<S> = map<string, S>

  /** An execution ends or throws; either way it leaves its subscription in some state. */
  datatype Outcome<S> = Done(state: Option<S>) | Threw(message: string, state: Option<S>)

  /** The caller's functions: executing an item, the error a snapshot throws, if it
      does, and whether the item's rollback goes through. */
  datatype Callbacks<!S> = Callbacks(execute: (Item, Option<S>) -> Outcome<S>, snapshotError: Item -> Option<string>,
                                     undoes: Item -> bool)

  function Put<S>(store: Store<S>, sub: string, state: Option<S>): (after: Store<S>)
    ensures forall s :: Lookup(after, s) == if s == sub then state else Lookup(store, s)
  {
    match state
    case None => store - {sub}
    case Some(v) => store[sub := v]
  }

  predicate Valid(items: seq<Item>) {
    0 < |items| <= 100 && forall i :: 0 <= i < |items| ==> Trim(items[i].subscriptionId) != ""
  }

  /** Counts the errors of a batch; a repeated subscription draws a warning only. */
  method ValidateAtomicBatch(items: seq<Item>) returns (valid: bool, warned: bool)
    ensures valid <==>
              0 < |items| <= 100 && forall i :: 0 <= i < |items| ==> Trim(items[i].subscriptionId) != ""
    ensures warned <==> (exists i, j :: 0 <= i < j < |items| && items[i].subscriptionId == items[j].subscriptionId)
                        || (exists i, j :: 0 <= i < |items| && 0 <= j < |items|
                                           && items[i].operation == "create" && items[j].operation == "cancel")
  {
    hide Trim;
    var errors, warnings := 0, 0;
    if |items| == 0 { errors := errors + 1; }
    if |items| > 100 { errors := errors + 1; }
    var seenIds: set<string> := {};
    for i := 0 to |items|
      invariant errors == 0 <==> 0 < |items| <= 100 && forall k :: 0 <= k < i ==> Trim(items[k].subscriptionId) != ""
      invariant errors >= 0 && warnings >= 0
      invariant seenIds == set k | 0 <= k < i :: items[k].subscriptionId
      invariant warnings > 0 <==> exists j, k :: 0 <= j < k < i && items[j].subscriptionId == items[k].subscriptionId
    {
      if Trim(items[i].subscriptionId) == "" { errors := errors + 1; }
      if items[i].subscriptionId in seenIds { warnings := warnings + 1; }
      seenIds := seenIds + {items[i].subscriptionId};
    }
    var ops := set i | 0 <= i < |items| :: items[i].operation;
    if "create" in ops && "cancel" in ops { warnings := warnings + 1; }
    return errors == 0, warnings > 0;
  }

  /** What the key sees of an item. */
  function Tag(item: Item): string {
    item.subscriptionId + ":" + item.operation
  }

  function KeyText(items: seq<Item>): string {
    Join(Map(items, Tag), "|")
  }

  /** The 32-bit hash in a batch's idempotency key. */
  function IdempotencyKey(items: seq<Item>): bv32 {
    Checksum(Units(KeyText(items)))
  }

  function FindIndex(results: seq<ItemResult>, id: string): (at: nat)
    ensures at <= |results|
    ensures at < |results| ==> results[at].id == id
    ensures forall i :: 0 <= i < at ==> results[i].id != id
  {
    FirstIndex(results, (r: ItemResult) => r.id == id)
  }

  /** The first item with an id. */
  function FindItem(items: seq<Item>, id: string): (at: nat)
    ensures at <= |items|
    ensures at < |items| ==> items[at].id == id
    ensures forall i :: 0 <= i < at ==> items[i].id != id
  {
    FirstIndex(items, (i: Item) => i.id == id)
  }

  function Pending(item: Item, error: Option<string>): ItemResult {
    ItemResult(item.id, item.subscriptionId, false, error)
  }

  /** The results after so many snapshots. */
  function Prepared<S>(items: seq<Item>, cb: Callbacks<S>, n: nat): (results: seq<ItemResult>)
    requires n <= |items|
    ensures |results| == n && forall i :: 0 <= i < n ==> results[i] == Pending(items[i], cb.snapshotError(items[i]))
  {
    seq(n, i requires 0 <= i < n => Pending(items[i], cb.snapshotError(items[i])))
  }

  /** The snapshots by item id; a later item with the same id takes its place. */
  function Snapshots<S>(items: seq<Item>, cb: Callbacks<S>, store: Store<S>, n: nat): map<string, Option<S>>
    requires n <= |items|
  {
    if n == 0 then map[]
    else
      var before := Snapshots(items, cb, store, n - 1);
      var item := items[n - 1];
      if cb.snapshotError(item).Some? then before else before[item.id := Lookup(store, item.subscriptionId)]
  }

  /** The first item whose snapshot throws. */
  function SnapshotStop<S>(items: seq<Item>, cb: Callbacks<S>): (k: nat)
    ensures k <= |items|
    ensures k < |items| ==> cb.snapshotError(items[k]).Some?
    ensures forall i :: 0 <= i < k ==> cb.snapshotError(items[i]).None?
  {
    FirstIndex(items, (i: Item) => cb.snapshotError(i).Some?)
  }

  datatype Progress<S> = Progress(store: Store<S>, results: seq<ItemResult>, failure: Option<string>)

  function Step<S>(p: Progress<S>, item: Item, cb: Callbacks<S>, failFast: bool): (q: Progress<S>)
    requires FindIndex(p.results, item.id) < |p.results|
    ensures |q.results| == |p.results| && forall i :: 0 <= i < |p.results| ==> q.results[i].id == p.results[i].id
  {
    var at := FindIndex(p.results, item.id);
    var outcome := cb.execute(item, Lookup(p.store, item.subscriptionId));
    var store := Put(p.store, item.subscriptionId, outcome.state);
    match outcome
    case Done(_) => Progress(store, p.results[at := p.results[at].(success := true)], None)
    case Threw(m, _) => Progress(store, p.results[at := p.results[at].(success := false, error := Some(m))],
                                 if failFast then Some(m) else None)
  }

  ghost predicate ResultsFor(results: seq<ItemResult>, items: seq<Item>) {
    |results| == |items| && forall i :: 0 <= i < |items| ==> results[i].id == items[i].id
  }

  /** Where the execution stands after so many items, or where it broke off. */
  function After<S>(items: seq<Item>, cb: Callbacks<S>, failFast: bool, start: Progress<S>, n: nat): (p: Progress<S>)
    requires n <= |items| && ResultsFor(start.results, items)
    ensures ResultsFor(p.results, items)
  {
    if n == 0 then start
    else
      var before := After(items, cb, failFast, start, n - 1);
      if before.failure.Some? then before
      else
        assert before.results[n - 1].id == items[n - 1].id;
        Step(before, items[n - 1], cb, failFast)
  }

  /** The store after taking back the first so many results, in the order they are in. */
  function Undone<S>(items: seq<Item>, results: seq<ItemResult>, snapshots: map<string, Option<S>>, cb: Callbacks<S>,
                     store: Store<S>, n: nat): Store<S>
    requires n <= |results| && ResultsFor(results, items)
  {
    if n == 0 then store
    else
      var before := Undone(items, results, snapshots, cb, store, n - 1);
      var r := results[n - 1];
      var at := FindItem(items, r.id);
      if r.success && r.id in snapshots && at < |items| && cb.undoes(items[at])
      then Put(before, items[at].subscriptionId, snapshots[r.id]) else before
  }

  function Succeeded(r: ItemResult): bool {
    r.success
  }

  function Unsuccessful(r: ItemResult): bool {
    !r.success
  }

  function BuildReport(status: Status, results: seq<ItemResult>, reason: Option<string>): Report {
    var succeeded := |Filter(results, Succeeded)|;
    Report(status, results, |results|, if status.RolledBack? then 0 else succeeded, |Filter(results, Unsuccessful)|,
           if status.RolledBack? then succeeded else 0, reason)
  }

  lemma {:induction false} EachCounted(results: seq<ItemResult>)
    ensures |Filter(results, Succeeded)| + |Filter(results, Unsuccessful)| == |results|
  {
    if results != [] { EachCounted(results[..|results| - 1]); }
  }

  /** The report and the store of a batch that is let through. */
  function Executed<S>(items: seq<Item>, cb: Callbacks<S>, failFast: bool, store: Store<S>): (Report, Store<S>) {
    var stop := SnapshotStop(items, cb);
    if failFast && stop < |items|
      then (BuildReport(Failed, Prepared(items, cb, stop + 1), Some("Snapshot phase failed")), store)
    else
      var p := After(items, cb, failFast, Progress(store, Prepared(items, cb, |items|), None), |items|);
      if p.failure.Some? && p.failure.value != "" then
        var snapshots := Snapshots(items, cb, store, |items|);
        (BuildReport(RolledBack, p.results, p.failure), Undone(items, p.results, snapshots, cb, p.store, |items|))
      else (BuildReport(Committed, p.results, None), p.store)
  }

  class AtomicBatchExecutor<!S> {
    /** The keys of the session's batches. */
    var executedKeys: set<bv32>
    var store: Store<S>

    constructor (store: Store<S>)
      ensures executedKeys == {} && this.store == store
    {
      executedKeys, this.store := {}, store;
    }

    method Execute(items: seq<Item>, cb: Callbacks<S>, failFast: bool) returns (report: Report)
      modifies this
      ensures var key, used := IdempotencyKey(items), IdempotencyKey(items) in old(executedKeys);
              && (used ==> report.status.Failed? && report.items == [] && report.totalItems == |items|
                           && report.succeededItems == report.failedItems == report.rolledBackItems == 0)
              && (!used && !Valid(items) ==> report.items == [] && report.failedItems == report.totalItems == |items|)
              && (used || !Valid(items) ==> report.status.Failed? && store == old(store))
              && (!used && Valid(items) ==> (report, store) == Executed(items, cb, failFast, old(store)))
              && executedKeys == if used || report.status.Failed? then old(executedKeys) else old(executedKeys) + {key}
      ensures report.succeededItems + report.failedItems + report.rolledBackItems == report.totalItems
              <==> IdempotencyKey(items) !in old(executedKeys) || items == []
    {
      hide Executed, BuildReport, Trim;
      var key := IdempotencyKey(items);
      if key in executedKeys {
        return Report(Failed, [], |items|, 0, 0, 0,
                      Some("Duplicate batch rejected (idempotency key already used in this session)."));
      }
      var valid, _ := ValidateAtomicBatch(items);
      if !valid {
        return Report(Failed, [], |items|, 0, |items|, 0, Some("Invalid batch"));
      }
      report := ExecuteValid(items, cb, failFast, key);
    }

    method ExecuteValid(items: seq<Item>, cb: Callbacks<S>, failFast: bool, key: bv32) returns (report: Report)
      modifies this
      ensures (report, store) == Executed(items, cb, failFast, old(store))
      ensures executedKeys == if report.status.Failed? then old(executedKeys) else old(executedKeys) + {key}
      ensures report.succeededItems + report.failedItems + report.rolledBackItems == report.totalItems
    {
      hide Filter, After, Step, Undone, Snapshots, SnapshotStop;
      var results, snapshots, stopped := TakeSnapshots(items, cb, failFast);
      EachCounted(results);
      if stopped {
        return BuildReport(Failed, results, Some("Snapshot phase failed"));
      }
      var ran, failureReason := RunItems(items, cb, failFast, results);
      EachCounted(ran);
      executedKeys := executedKeys + {key};
      if failureReason.Some? && failureReason.value != "" {
        RollBack(items, ran, snapshots, cb);
        return BuildReport(RolledBack, ran, failureReason);
      }
      report := BuildReport(Committed, ran, None);
    }

    /** Takes the snapshots, up to the first that throws when failing fast. */
    method TakeSnapshots(items: seq<Item>, cb: Callbacks<S>, failFast: bool)
      returns (results: seq<ItemResult>, snapshots: map<string, Option<S>>, stopped: bool)
      ensures stopped <==> failFast && SnapshotStop(items, cb) < |items|
      ensures stopped ==> results == Prepared(items, cb, SnapshotStop(items, cb) + 1)
      ensures !stopped ==> results == Prepared(items, cb, |items|) && snapshots == Snapshots(items, cb, store, |items|)
    {
      hide Lookup;
      results, snapshots, stopped := [], map[], false;
      for i := 0 to |items|
        invariant results == Prepared(items, cb, i) && snapshots == Snapshots(items, cb, store, i)
        invariant failFast ==> i <= SnapshotStop(items, cb)
      {
        var error := cb.snapshotError(items[i]);
        if error.None? { snapshots := snapshots[items[i].id := Lookup(store, items[i].subscriptionId)]; }
        results := results + [Pending(items[i], error)];
        if error.Some? && failFast {
          stopped := true;
          return;
        }
      }
    }

    method RunItems(items: seq<Item>, cb: Callbacks<S>, failFast: bool, prepared: seq<ItemResult>)
      returns (results: seq<ItemResult>, failureReason: Option<string>)
      requires ResultsFor(prepared, items)
      modifies `store
      ensures |results| == |items| && (failureReason.Some? ==> failFast)
      ensures Progress(store, results, failureReason)
              == After(items, cb, failFast, Progress(old(store), prepared, None), |items|)
    {
      hide Put, Lookup, FindIndex, After, ResultsFor;
      results, failureReason := prepared, None;
      ghost var start := Progress(store, prepared, None);
      AfterNone(items, cb, failFast, start);
      for i := 0 to |items|
        invariant failureReason == None && |results| == |items|
        invariant Progress(store, results, None) == After(items, cb, failFast, start, i)
      {
        var item := items[i];
        AfterNext(items, cb, failFast, start, i);
        var resultIndex := FindIndex(results, item.id);
        var outcome := cb.execute(item, Lookup(store, item.subscriptionId));
        store := Put(store, item.subscriptionId, outcome.state);
        if outcome.Done? {
          results := results[resultIndex := results[resultIndex].(success := true)];
        } else {
          results := results[resultIndex := results[resultIndex].(success := false, error := Some(outcome.message))];
          if failFast {
            failureReason := Some(outcome.message);
            StaysBroken(items, cb, failFast, start, i + 1, |items|);
            return;
          }
        }
      }
    }

    method RollBack(items: seq<Item>, results: seq<ItemResult>, snapshots: map<string, Option<S>>, cb: Callbacks<S>)
      requires ResultsFor(results, items)
      modifies `store
      ensures store == Undone(items, results, snapshots, cb, old(store), |items|)
    {
      hide Put, FindItem, FindIndex, Lookup;
      for i := 0 to |results|
        invariant store == Undone(items, results, snapshots, cb, old(store), i)
      {
        var r := results[i];
        if r.success && r.id in snapshots {
          var at := FindItem(items, r.id);
          if at < |items| && cb.undoes(items[at]) {
            store := Put(store, items[at].subscriptionId, snapshots[r.id]);
          }
        }
      }
    }
  }

  lemma {:induction false} AfterNone<S>(items: seq<Item>, cb: Callbacks<S>, failFast: bool, start: Progress<S>)
    requires ResultsFor(start.results, items)
    ensures After(items, cb, failFast, start, 0) == start && |start.results| == |items|
  {
  }

  lemma AfterNext<S>(items: seq<Item>, cb: Callbacks<S>, failFast: bool, start: Progress<S>, i: nat)
    requires i < |items| && ResultsFor(start.results, items) && After(items, cb, failFast, start, i).failure.None?
    ensures var p := After(items, cb, failFast, start, i);
            && FindIndex(p.results, items[i].id) < |p.results|
            && After(items, cb, failFast, start, i + 1) == Step(p, items[i], cb, failFast)
  {
    hide Step, FindIndex;
    assert After(items, cb, failFast, start, i).results[i].id == items[i].id;
  }

  lemma {:induction false} StaysBroken<S>(items: seq<Item>, cb: Callbacks<S>, failFast: bool, start: Progress<S>,
                                          m: nat, n: nat)
    requires m <= n <= |items| && ResultsFor(start.results, items) && After(items, cb, failFast, start, m).failure.Some?
    ensures After(items, cb, failFast, start, n) == After(items, cb, failFast, start, m)
  {
    hide Step;
    if m < n { StaysBroken(items, cb, failFast, start, m, n - 1); }
  }

  ghost predicate UniqueIds(items: seq<Item>) {
    forall i, j :: 0 <= i < j < |items| ==> items[i].id != items[j].id
  }

  /** The first item with the same id, under which an outcome is recorded. */
  function First(items: seq<Item>, i: nat): (j: nat)
    requires i < |items|
    ensures j <= i && items[j].id == items[i].id
    ensures forall k :: 0 <= k < j ==> items[k].id != items[i].id
  {
    FindItem(items, items[i].id)
  }

  /** The last of the first `n` items with an id, whose snapshot is the one kept. */
  function LastWith(items: seq<Item>, id: string, n: nat): (i: int)
    requires n <= |items|
    ensures -1 <= i < n
    ensures i >= 0 ==> items[i].id == id
    ensures forall k :: 0 <= k < n && i < k ==> items[k].id != id
  {
    if n == 0 then -1 else if items[n - 1].id == id then n - 1 else LastWith(items, id, n - 1)
  }

  function Last(items: seq<Item>, i: nat): (j: nat)
    requires i < |items|
    ensures i <= j < |items| && items[j].id == items[i].id
  {
    LastWith(items, items[i].id, |items|)
  }

  lemma FoundFirst(items: seq<Item>, results: seq<ItemResult>, i: nat)
    requires ResultsFor(results, items) && i < |items|
    ensures |results| == |items| && FindIndex(results, items[i].id) == First(items, i)
        && FindItem(items, results[i].id) == First(items, i)
    ensures First(items, First(items, i)) == First(items, i)
  {
    var at, found := FindIndex(results, items[i].id), First(items, i);
    assert at < |results| ==> results[at].id == items[at].id;
    assert results[found].id == items[found].id;
  }

  /** With unique ids, what is recorded under an id is the item's own. */
  lemma InPlace(items: seq<Item>)
    requires UniqueIds(items)
    ensures forall i :: 0 <= i < |items| ==> First(items, i) == i && Last(items, i) == i
  {
  }

  /** Which item breaks the execution off, if one does. */
  function Stop<S>(items: seq<Item>, cb: Callbacks<S>, start: Progress<S>, n: nat): (f: nat)
    requires n <= |items| && ResultsFor(start.results, items)
    ensures f <= n
  {
    if n == 0 then 0
    else if After(items, cb, true, start, n - 1).failure.Some? then Stop(items, cb, start, n - 1)
    else if After(items, cb, true, start, n).failure.Some? then n - 1 else n
  }

  /** The results that say success when the first `n` items have had their turn, up to a
      break at item `f`: the first of each id, unless the break is recorded there. */
  predicate Succeeds(items: seq<Item>, f: nat, n: nat, j: nat)
    requires f <= n <= |items| && j < |items|
  {
    j < f && First(items, j) == j && (f < n ==> items[f].id != items[j].id)
  }

  ghost predicate SuccessesAre(items: seq<Item>, results: seq<ItemResult>, f: nat, n: nat)
    requires f <= n <= |items|
  {
    ResultsFor(results, items) && forall j :: 0 <= j < |items| ==> (results[j].success <==> Succeeds(items, f, n, j))
  }

  /** What was never executed is as it was. */
  ghost predicate BrokenOffAt<S>(items: seq<Item>, store: Store<S>, p: Progress<S>, f: nat, n: nat)
    requires f <= n <= |items|
  {
    && SuccessesAre(items, p.results, f, n)
    && (p.failure.Some? <==> f < n)
    && forall s :: (forall i :: 0 <= i < |items| && i < n && i <= f ==> items[i].subscriptionId != s) ==>
      Lookup(p.store, s) == Lookup(store, s)
  }

  /** Writing one more outcome: a success is recorded at the first item of its id, and
      a failure over what was recorded there. */
  lemma OneMore(items: seq<Item>, results: seq<ItemResult>, n: nat, success: bool, error: Option<string>)
    requires n < |items| && SuccessesAre(items, results, n, n)
    ensures var at := First(items, n);
            SuccessesAre(items, results[at := results[at].(success := success, error := error)],
                         if success then n + 1 else n, n + 1)
  {
    hide First;
    FirstTwice(items, n);
    forall j | 0 <= j < |items| && First(items, j) == j && items[j].id == items[n].id ensures j == First(items, n) {
      SameFirst(items, j, n);
    }
  }

  lemma FirstTwice(items: seq<Item>, i: nat)
    requires i < |items|
    ensures First(items, First(items, i)) == First(items, i)
  {
  }

  lemma SameFirst(items: seq<Item>, i: nat, j: nat)
    requires i < |items| && j < |items| && items[i].id == items[j].id
    ensures First(items, i) == First(items, j)
  {
  }

  lemma ExecuteOne<S>(items: seq<Item>, cb: Callbacks<S>, store: Store<S>, p: Progress<S>, n: nat)
    requires n < |items| == |p.results| && BrokenOffAt(items, store, p, n, n)
        && FindIndex(p.results, items[n].id) == First(items, n)
    ensures var q := Step(p, items[n], cb, true);
            BrokenOffAt(items, store, q, if q.failure.Some? then n else n + 1, n + 1)
  {
    hide Lookup, FindIndex, First, SuccessesAre;
    var q, outcome, at := Step(p, items[n], cb, true), cb.execute(items[n], Lookup(p.store, items[n].subscriptionId)),
      First(items, n);
    OneMore(items, p.results, n, outcome.Done?, if outcome.Done? then p.results[at].error else Some(outcome.message));
  }

  lemma {:induction false} BreaksOffOnce<S>(items: seq<Item>, cb: Callbacks<S>, start: Progress<S>, n: nat)
    requires n <= |items| && start.failure.None?
    requires ResultsFor(start.results, items) && forall i :: 0 <= i < |items| ==> !start.results[i].success
    ensures BrokenOffAt(items, start.store, After(items, cb, true, start, n), Stop(items, cb, start, n), n)
  {
    hide Lookup, Step, ResultsFor, FindIndex, First, Put;
    if n > 0 {
      BreaksOffOnce(items, cb, start, n - 1);
      var before := After(items, cb, true, start, n - 1);
      if before.failure.None? {
        FoundFirst(items, before.results, n - 1);
        assert Stop(items, cb, start, n - 1) == n - 1;
        ExecuteOne(items, cb, start.store, before, n - 1);
      }
    }
  }

  /** Under each id is the snapshot of the last item that has it. */
  lemma {:induction false} SnapshotsHold<S>(items: seq<Item>, cb: Callbacks<S>, store: Store<S>, n: nat)
    requires n <= |items| && forall i :: 0 <= i < n ==> cb.snapshotError(items[i]).None?
    ensures forall id :: Lookup(Snapshots(items, cb, store, n), id)
                         == var i := LastWith(items, id, n);
                            if i < 0 then None else Some(Lookup(store, items[i].subscriptionId))
  {
    if n > 0 { SnapshotsHold(items, cb, store, n - 1); }
  }

  /** The result that puts a subscription back: success is recorded there, for an item
      whose rollback goes through. */
  predicate Restores(items: seq<Item>, undoes: Item -> bool, f: nat, j: nat)
    requires f < |items| && j < |items|
  {
    Succeeds(items, f, |items|, j) && undoes(items[j])
  }

  /** The last of the first `n` results that puts a subscription back, or -1. */
  function Restorer(items: seq<Item>, undoes: Item -> bool, f: nat, s: string, n: nat): (j: int)
    requires f < |items| && n <= |items|
    ensures -1 <= j < n
    ensures j >= 0 ==> items[j].subscriptionId == s && Restores(items, undoes, f, j)
    ensures forall k :: 0 <= k < n && j < k && items[k].subscriptionId == s ==> !Restores(items, undoes, f, k)
  {
    if n == 0 then -1
    else if items[n - 1].subscriptionId == s && Restores(items, undoes, f, n - 1) then n - 1
    else Restorer(items, undoes, f, s, n - 1)
  }

  /** The subscription whose state at the start a rolled-back one is given: that of the
      last item with the restoring item's id. */
  function GivenBack(items: seq<Item>, undoes: Item -> bool, f: nat, s: string): (from: Option<string>)
    requires f < |items|
  {
    var j := Restorer(items, undoes, f, s, |items|);
    if j < 0 then None else Some(items[Last(items, j)].subscriptionId)
  }

  /** The state a subscription is left in once the first `n` results are taken back. */
  function LeftIn<S>(items: seq<Item>, undoes: Item -> bool, initial: Store<S>, store: Store<S>, f: nat, s: string,
                     n: nat): Option<S>
    requires f < |items| && n <= |items|
  {
    var j := Restorer(items, undoes, f, s, n);
    if j < 0 then Lookup(store, s) else Lookup(initial, items[Last(items, j)].subscriptionId)
  }

  lemma LeftInNext<S>(items: seq<Item>, undoes: Item -> bool, initial: Store<S>, store: Store<S>, f: nat, s: string,
                      n: nat)
    requires f < |items| && n < |items|
    ensures LeftIn(items, undoes, initial, store, f, s, n + 1)
            == if items[n].subscriptionId == s && Restores(items, undoes, f, n)
                then Lookup(initial, items[Last(items, n)].subscriptionId)
               else LeftIn(items, undoes, initial, store, f, s, n)
  {
    hide Lookup, Last, Restores;
  }

  /** The rollback, whatever the ids: a subscription without a restoring result stays as
      the execution left it. */
  lemma {:induction false} UndoneExactly<S>(items: seq<Item>, results: seq<ItemResult>,
                                            snapshots: map<string, Option<S>>,
                                           cb: Callbacks<S>, initial: Store<S>, store: Store<S>, f: nat, n: nat)
    requires f < |items| && n <= |items| && SuccessesAre(items, results, f, |items|)
    requires forall i :: 0 <= i < |items| ==>
        Lookup(snapshots, items[i].id) == Some(Lookup(initial, items[Last(items, i)].subscriptionId))
    ensures forall s :: Lookup(Undone(items, results, snapshots, cb, store, n), s)
                        == LeftIn(items, cb.undoes, initial, store, f, s, n)
  {
    hide Lookup, Put, ResultsFor, Last, Undone, Restores, LeftIn;
    if n == 0 {
      UndoneNone(items, results, snapshots, cb, initial, store, f);
    } else {
      UndoneExactly(items, results, snapshots, cb, initial, store, f, n - 1);
      UndoneNext(items, results, snapshots, cb, initial, store, f, n - 1);
      forall s ensures Lookup(Undone(items, results, snapshots, cb, store, n), s)
          == LeftIn(items, cb.undoes, initial, store, f, s, n) {
        LeftInNext(items, cb.undoes, initial, store, f, s, n - 1);
      }
    }
  }

  lemma {:induction false} UndoneNone<S>(items: seq<Item>, results: seq<ItemResult>, snapshots: map<string, Option<S>>,
                                         cb: Callbacks<S>,
                      initial: Store<S>, store: Store<S>, f: nat)
    requires f < |items| && ResultsFor(results, items)
    ensures Undone(items, results, snapshots, cb, store, 0) == store
    ensures forall s :: LeftIn(items, cb.undoes, initial, store, f, s, 0) == Lookup(store, s)
  {
  }

  lemma UndoneNext<S>(items: seq<Item>, results: seq<ItemResult>, snapshots: map<string, Option<S>>, cb: Callbacks<S>,
                      initial: Store<S>, store: Store<S>, f: nat, k: nat)
    requires f < |items| && SuccessesAre(items, results, f, |items|) && k < |items|
    requires Lookup(snapshots, items[k].id) == Some(Lookup(initial, items[Last(items, k)].subscriptionId))
    ensures |results| == |items|
    ensures var before := Undone(items, results, snapshots, cb, store, k);
            Undone(items, results, snapshots, cb, store, k + 1)
            == if Restores(items, cb.undoes, f, k)
               then Put(before, items[k].subscriptionId, Lookup(initial, items[Last(items, k)].subscriptionId))
               else before
  {
    hide Put, FindItem, FindIndex, First, Last;
    FoundFirst(items, results, k);
  }

  /** Where an atomic batch stands before any rollback. */
  function Ran<S>(items: seq<Item>, cb: Callbacks<S>, store: Store<S>): (p: Progress<S>)
    ensures ResultsFor(p.results, items)
  {
    After(items, cb, true, Progress(store, Prepared(items, cb, |items|), None), |items|)
  }

  function BreakOf<S>(items: seq<Item>, cb: Callbacks<S>, store: Store<S>): (f: nat)
    ensures f <= |items|
  {
    Stop(items, cb, Progress(store, Prepared(items, cb, |items|), None), |items|)
  }

  /** What a rolled-back batch leaves behind, whatever its ids. */
  lemma LeavesExactly<S>(items: seq<Item>, cb: Callbacks<S>, store: Store<S>)
    requires Executed(items, cb, true, store).0.status.RolledBack?
    ensures var f := BreakOf(items, cb, store);
            && f < |items|
            && (forall s :: Lookup(Executed(items, cb, true, store).1, s)
                            == match GivenBack(items, cb.undoes, f, s)
                               case None => Lookup(Ran(items, cb, store).store, s)
                               case Some(from) => Lookup(store, from))
            && (forall s :: (forall i :: 0 <= i <= f ==> items[i].subscriptionId != s) ==>
                Lookup(Ran(items, cb, store).store, s) == Lookup(store, s))
  {
    hide After, Undone, Snapshots, Lookup, Filter, Prepared, Stop, SuccessesAre, Restorer, LastWith;
    var p, f := Ran(items, cb, store), BreakOf(items, cb, store);
    BreaksOffOnce(items, cb, Progress(store, Prepared(items, cb, |items|), None), |items|);
    var snapshots := Snapshots(items, cb, store, |items|);
    SnapshotsHold(items, cb, store, |items|);
    UndoneExactly(items, p.results, snapshots, cb, store, p.store, f, |items|);
  }

  /** Every subscription executed before the break is given back a state, and its own. */
  predicate ComesBack(items: seq<Item>, undoes: Item -> bool, f: nat)
    requires f < |items|
  {
    forall i :: 0 <= i < f ==> GivenBack(items, undoes, f, items[i].subscriptionId) == Some(items[i].subscriptionId)
  }

  ghost predicate Harmless<S(!new)>(cb: Callbacks<S>) {
    forall item, state :: cb.execute(item, state).Threw? ==> cb.execute(item, state).state == state
  }

  /** The execution goes through up to the break, and nothing follows it. */
  lemma {:induction false} UntilBreak<S>(items: seq<Item>, cb: Callbacks<S>, start: Progress<S>, n: nat)
    requires n <= |items| && ResultsFor(start.results, items) && start.failure.None?
    ensures var f := Stop(items, cb, start, n);
            && After(items, cb, true, start, f).failure.None?
            && (f < n ==> After(items, cb, true, start, n) == After(items, cb, true, start, f + 1)
                          && After(items, cb, true, start, f + 1).failure.Some?)
  {
    hide Step, ResultsFor;
    if n > 0 { UntilBreak(items, cb, start, n - 1); }
  }

  lemma BreakLeaves<S(!new)>(items: seq<Item>, cb: Callbacks<S>, start: Progress<S>, f: nat)
    requires f < |items| && ResultsFor(start.results, items) && Harmless(cb)
    requires After(items, cb, true, start, f).failure.None? && After(items, cb, true, start, f + 1).failure.Some?
    ensures forall s ::
              Lookup(After(items, cb, true, start, f + 1).store, s) == Lookup(After(items, cb, true, start, f).store, s)
  {
    hide Lookup, Put, FindIndex;
    var before := After(items, cb, true, start, f);
    assert before.results[f].id == items[f].id;
    assert After(items, cb, true, start, f + 1) == Step(before, items[f], cb, true);
  }

  lemma PreparedFor<S>(items: seq<Item>, cb: Callbacks<S>)
    ensures ResultsFor(Prepared(items, cb, |items|), items)
  {
  }

  lemma {:induction false} StopStays<S>(items: seq<Item>, cb: Callbacks<S>, start: Progress<S>, f: nat)
    requires f <= |items| && ResultsFor(start.results, items) && start.failure.None?
    requires After(items, cb, true, start, f).failure.None?
    ensures Stop(items, cb, start, f) == f
  {
  }

  /** Harmless failures leave alone what no item before the break was executed on. */
  lemma OnlyExecuted<S(!new)>(items: seq<Item>, cb: Callbacks<S>, store: Store<S>)
    requires Harmless(cb) && BreakOf(items, cb, store) < |items|
    ensures var f := BreakOf(items, cb, store);
            forall s :: (forall i :: 0 <= i < f ==> items[i].subscriptionId != s) ==>
                Lookup(Ran(items, cb, store).store, s) == Lookup(store, s)
  {
    hide Lookup, After, ResultsFor, Stop, Harmless, SuccessesAre;
    var f, start := BreakOf(items, cb, store), Progress(store, Prepared(items, cb, |items|), None);
    PreparedFor(items, cb);
    UntilBreak(items, cb, start, |items|);
    BreakLeaves(items, cb, start, f);
    assert ResultsFor(start.results, items) && forall i :: 0 <= i < |items| ==> !start.results[i].success;
    BreaksOffOnce(items, cb, start, f);
    StopStays(items, cb, start, f);
  }

  /** A batch whose failures change nothing leaves the store as it found it wherever the
      subscriptions executed before the break all come back. */
  lemma AllOrNothing<S(!new)>(items: seq<Item>, cb: Callbacks<S>, store: Store<S>)
    requires Harmless(cb) && Executed(items, cb, true, store).0.status.RolledBack?
    requires BreakOf(items, cb, store) < |items| ==> ComesBack(items, cb.undoes, BreakOf(items, cb, store))
    ensures Executed(items, cb, true, store).1 == store
  {
    hide Executed, Lookup, Ran, BreakOf, GivenBack, Harmless;
    LeavesExactly(items, cb, store);
    OnlyExecuted(items, cb, store);
    var f, after := BreakOf(items, cb, store), Executed(items, cb, true, store).1;
    forall s ensures Lookup(after, s) == Lookup(store, s) {
      if forall i :: 0 <= i < f ==> items[i].subscriptionId != s {
        NotGivenBack(items, cb.undoes, f, s);
      }
    }
    SameLookups(after, store);
  }

  lemma NotGivenBack(items: seq<Item>, undoes: Item -> bool, f: nat, s: string)
    requires f < |items| && forall i :: 0 <= i < f ==> items[i].subscriptionId != s
    ensures GivenBack(items, undoes, f, s).None?
  {
    var j := Restorer(items, undoes, f, s, |items|);
    assert j >= 0 ==> Restores(items, undoes, f, j);
  }

  /** With unique ids and rollbacks that go through, every batch comes back. */
  lemma UniqueComesBack(items: seq<Item>, undoes: Item -> bool, f: nat)
    requires UniqueIds(items) && f < |items| && forall i :: 0 <= i < |items| ==> undoes(items[i])
    ensures ComesBack(items, undoes, f)
  {
    hide Restorer, First, Last;
    InPlace(items);
    forall i | 0 <= i < f
      ensures GivenBack(items, undoes, f, items[i].subscriptionId) == Some(items[i].subscriptionId)
    {
      assert Restores(items, undoes, f, i);
    }
  }

  // --------------------------------------------------------- item after item

  /** The store once the first `n` items were executed, each on what its subscription's
      state was by then. */
  function Applied<S>(items: seq<Item>, cb: Callbacks<S>, store: Store<S>, n: nat): Store<S>
    requires n <= |items|
  {
    if n == 0 then store
    else
      var before, sub := Applied(items, cb, store, n - 1), items[n - 1].subscriptionId;
      Put(before, sub, cb.execute(items[n - 1], Lookup(before, sub)).state)
  }

  /** What executing an item in its turn comes to. */
  function OutcomeOf<S>(items: seq<Item>, cb: Callbacks<S>, store: Store<S>, i: nat): Outcome<S>
    requires i < |items|
  {
    cb.execute(items[i], Lookup(Applied(items, cb, store, i), items[i].subscriptionId))
  }

  lemma AppliedNext<S>(items: seq<Item>, cb: Callbacks<S>, p: Progress<S>, store: Store<S>, n: nat, failFast: bool)
    requires n < |items| && p.store == Applied(items, cb, store, n) && FindIndex(p.results, items[n].id) < |p.results|
    ensures var q := Step(p, items[n], cb, failFast);
            && q.store == Applied(items, cb, store, n + 1)
            && q.failure == if failFast && OutcomeOf(items, cb, store, n).Threw?
                            then Some(OutcomeOf(items, cb, store, n).message) else None
  {
    hide Lookup, Put, FindIndex;
  }

  /** An atomic batch breaks off on the first item, if any, whose execution throws; that one
      and those before it were executed, and no other. */
  lemma {:induction false} BreaksAtFirstFailure<S>(items: seq<Item>, cb: Callbacks<S>, store: Store<S>)
    ensures var f := BreakOf(items, cb, store);
            && (forall i :: 0 <= i < f ==> OutcomeOf(items, cb, store, i).Done?)
            && (f < |items| ==>
                  && OutcomeOf(items, cb, store, f).Threw?
                  && Ran(items, cb, store).failure == Some(OutcomeOf(items, cb, store, f).message))
            && Ran(items, cb, store).store == Applied(items, cb, store, if f < |items| then f + 1 else |items|)
  {
    hide OutcomeOf, Applied, After, Stop, Prepared;
    PreparedFor(items, cb);
    BreaksWhere(items, cb, Progress(store, Prepared(items, cb, |items|), None), |items|);
  }

  lemma {:induction false} BreaksWhere<S>(items: seq<Item>, cb: Callbacks<S>, start: Progress<S>, n: nat)
    requires n <= |items| && ResultsFor(start.results, items) && start.failure.None?
    ensures var f, p := Stop(items, cb, start, n), After(items, cb, true, start, n);
            && (forall i :: 0 <= i < f ==> OutcomeOf(items, cb, start.store, i).Done?)
            && (f < n ==> OutcomeOf(items, cb, start.store, f).Threw?
                          && p.failure == Some(OutcomeOf(items, cb, start.store, f).message))
            && (f == n ==> p.failure.None?)
            && p.store == Applied(items, cb, start.store, if f < n then f + 1 else n)
  {
    hide Step, ResultsFor, OutcomeOf;
    if n == 0 {
      NothingApplied(items, cb, start.store);
    } else {
      BreaksWhere(items, cb, start, n - 1);
      var before := After(items, cb, true, start, n - 1);
      if before.failure.None? {
        assert Stop(items, cb, start, n - 1) == n - 1;
        AfterNext(items, cb, true, start, n - 1);
        AppliedNext(items, cb, before, start.store, n - 1, true);
        IsThrown(OutcomeOf(items, cb, start.store, n - 1));
      }
    }
  }

  lemma IsThrown<S>(outcome: Outcome<S>)
    ensures outcome.Done? <==> !outcome.Threw?
  {
  }

  lemma {:induction false} NothingApplied<S>(items: seq<Item>, cb: Callbacks<S>, store: Store<S>)
    ensures Applied(items, cb, store, 0) == store
  {
  }

  /** Whether the first `n` items leave a success recorded at `j`: the first of an id tells
      how the last of them with it ended. */
  ghost predicate SucceededLast<S>(items: seq<Item>, cb: Callbacks<S>, store: Store<S>, n: nat, j: nat)
    requires n <= |items| && j < |items|
  {
    var i := LastWith(items, items[j].id, n);
    First(items, j) == j && i >= 0 && OutcomeOf(items, cb, store, i).Done?
  }

  ghost predicate WentOn<S>(items: seq<Item>, cb: Callbacks<S>, store: Store<S>, p: Progress<S>, n: nat)
    requires n <= |items|
  {
    && ResultsFor(p.results, items) && p.failure.None? && p.store == Applied(items, cb, store, n)
    && forall j :: 0 <= j < |items| ==> (p.results[j].success <==> SucceededLast(items, cb, store, n, j))
  }

  lemma RecordedLast<S>(items: seq<Item>, cb: Callbacks<S>, store: Store<S>, n: nat, j: nat)
    requires n < |items| && j < |items|
    ensures SucceededLast(items, cb, store, n + 1, j)
            <==> if j == First(items, n) then OutcomeOf(items, cb, store, n).Done?
                 else SucceededLast(items, cb, store, n, j)
  {
    hide OutcomeOf;
    FirstTwice(items, n);
    if items[j].id == items[n].id { SameFirst(items, j, n); }
  }

  lemma GoOn<S>(items: seq<Item>, cb: Callbacks<S>, store: Store<S>, p: Progress<S>, n: nat)
    requires n < |items| == |p.results| && WentOn(items, cb, store, p, n)
    requires FindIndex(p.results, items[n].id) == First(items, n)
    ensures WentOn(items, cb, store, Step(p, items[n], cb, false), n + 1)
  {
    AppliedNext(items, cb, p, store, n, false);
    hide Lookup, Put, FindIndex, First, Applied, SucceededLast;
    var q := Step(p, items[n], cb, false);
    assert q.results[First(items, n)].success == OutcomeOf(items, cb, store, n).Done?;
    forall j | 0 <= j < |items| ensures q.results[j].success <==> SucceededLast(items, cb, store, n + 1, j) {
      RecordedLast(items, cb, store, n, j);
    }
  }

  lemma {:induction false} GoesOn<S>(items: seq<Item>, cb: Callbacks<S>, start: Progress<S>, n: nat)
    requires n <= |items| && start.failure.None?
    requires ResultsFor(start.results, items) && forall i :: 0 <= i < |items| ==> !start.results[i].success
    ensures WentOn(items, cb, start.store, After(items, cb, false, start, n), n)
  {
    hide Step, ResultsFor, OutcomeOf, FindIndex, First;
    if n > 0 {
      GoesOn(items, cb, start, n - 1);
      var before := After(items, cb, false, start, n - 1);
      FoundFirst(items, before.results, n - 1);
      AfterNext(items, cb, false, start, n - 1);
      hide WentOn;
      GoOn(items, cb, start.store, before, n - 1);
    }
  }

  /** Without failing fast, every item is executed in order and none is taken back, whatever
      throws; the report says success for an id if its last item succeeded. */
  lemma {:induction false} KeepsGoing<S>(items: seq<Item>, cb: Callbacks<S>, store: Store<S>)
    ensures var (report, after) := Executed(items, cb, false, store);
            && report.status == Committed && after == Applied(items, cb, store, |items|)
            && |report.items| == |items|
            && forall j :: 0 <= j < |items| ==>
                 && report.items[j].id == items[j].id
                 && (report.items[j].success <==>
                       && (forall k :: 0 <= k < j ==> items[k].id != items[j].id)
                       && OutcomeOf(items, cb, store, Last(items, j)).Done?)
  {
    hide Applied, OutcomeOf, After, Filter, Prepared;
    PreparedFor(items, cb);
    GoesOn(items, cb, Progress(store, Prepared(items, cb, |items|), None), |items|);
  }

  lemma {:induction false} NoneSucceeded(results: seq<ItemResult>)
    requires forall i :: 0 <= i < |results| ==> !results[i].success
    ensures |Filter(results, Succeeded)| == 0 && |Filter(results, Unsuccessful)| == |results|
  {
    if results != [] { NoneSucceeded(results[..|results| - 1]); }
  }

  /** When failing fast, the first snapshot that throws ends the batch before any execution:
      the report lists the items up to that one, all failed, and the store is as it was. */
  lemma FailsUntaken<S>(items: seq<Item>, cb: Callbacks<S>, store: Store<S>, k: nat)
    requires k < |items| && cb.snapshotError(items[k]).Some?
    requires forall i :: 0 <= i < k ==> cb.snapshotError(items[i]).None?
    ensures var (report, after) := Executed(items, cb, true, store);
            && report.status == Failed && after == store
            && |report.items| == report.totalItems == report.failedItems == k + 1
            && report.succeededItems == report.rolledBackItems == 0
            && forall i :: 0 <= i <= k ==> report.items[i].id == items[i].id && !report.items[i].success
                                           && report.items[i].error == cb.snapshotError(items[i])
  {
    hide Filter;
    assert SnapshotStop(items, cb) == k;
    NoneSucceeded(Prepared(items, cb, k + 1));
  }

  // -------------------------------------------------- a batch that stays changed

  function Executions(items: seq<Item>, s: string, n: nat): nat
    requires n <= |items|
  {
    if n == 0 then 0 else Executions(items, s, n - 1) + if items[n - 1].subscriptionId == s then 1 else 0
  }

  lemma {:induction false} ExecutionsGrow(items: seq<Item>, s: string, i: nat, n: nat)
    requires i < n <= |items| && items[i].subscriptionId == s
    ensures Executions(items, s, i) < Executions(items, s, n)
  {
    if i < n - 1 { ExecutionsGrow(items, s, i, n - 1); }
  }

  function NumberOf(items: seq<Item>, s: string): (at: nat)
    ensures at <= |items|
    ensures at < |items| ==> items[at].subscriptionId == s
    ensures forall i :: 0 <= i < at ==> items[i].subscriptionId != s
  {
    FirstIndex(items, (i: Item) => i.subscriptionId == s)
  }

  /** A store in which no two subscriptions of the batch are in the same state. */
  function Numbered(items: seq<Item>): (store: Store<int>)
    ensures forall i :: 0 <= i < |items| ==>
        Lookup(store, items[i].subscriptionId) == Some(NumberOf(items, items[i].subscriptionId))
  {
    map s | s in (set i | 0 <= i < |items| :: items[i].subscriptionId) :: NumberOf(items, s)
  }

  /** Every execution counts its subscription up, but the one of item `f` throws and
      changes nothing. */
  function Counting(items: seq<Item>, undoes: Item -> bool, f: nat): Callbacks<int>
    requires f < |items|
  {
    var s := items[f].subscriptionId;
    var due := NumberOf(items, s) + Executions(items, s, f);
    Callbacks((item: Item, state: Option<int>) =>
                if item == items[f] && state == Some(due) then Threw("failed", state)
                else Done(Some(1 + if state.Some? then state.value else 0)),
              (item: Item) => None, undoes)
  }

  ghost predicate CountedUp(items: seq<Item>, store: Store<int>, n: nat)
    requires n <= |items|
  {
    forall i :: 0 <= i < |items| ==>
      var s := items[i].subscriptionId;
      Lookup(store, s) == Some(NumberOf(items, s) + Executions(items, s, n))
  }

  lemma CountOne(items: seq<Item>, undoes: Item -> bool, f: nat, p: Progress<int>, n: nat)
    requires n <= f < |items| && CountedUp(items, p.store, n) && FindIndex(p.results, items[n].id) < |p.results|
    ensures var q := Step(p, items[n], Counting(items, undoes, f), true);
            if n < f then q.failure.None? && CountedUp(items, q.store, n + 1)
            else q.failure == Some("failed") && CountedUp(items, q.store, n)
  {
    hide Lookup, NumberOf, FindIndex;
    if n < f { ExecutionsGrow(items, items[n].subscriptionId, n, f); }
  }

  lemma NumberedCounts(items: seq<Item>)
    ensures CountedUp(items, Numbered(items), 0)
  {
    hide Lookup, NumberOf, Numbered;
  }

  lemma {:induction false} CountsUp(items: seq<Item>, undoes: Item -> bool, f: nat, start: Progress<int>, n: nat)
    requires n <= f < |items| && start.store == Numbered(items) && start.failure.None?
        && ResultsFor(start.results, items)
    ensures var p := After(items, Counting(items, undoes, f), true, start, n);
            p.failure.None? && CountedUp(items, p.store, n)
  {
    hide Lookup, NumberOf, Numbered, FindIndex, Put, ResultsFor, Counting, CountedUp, Step;
    var cb := Counting(items, undoes, f);
    if n == 0 {
      NumberedCounts(items);
    } else {
      CountsUp(items, undoes, f, start, n - 1);
      AfterNext(items, cb, true, start, n - 1);
      CountOne(items, undoes, f, After(items, cb, true, start, n - 1), n - 1);
    }
  }

  /** Otherwise some batch run with harmless failures stays changed: together with the
      above, the list of items decides whether all of them are all or nothing. */
  lemma StaysChanged(items: seq<Item>, undoes: Item -> bool, f: nat)
    requires f < |items| && !ComesBack(items, undoes, f)
    ensures var cb, store := Counting(items, undoes, f), Numbered(items);
            && cb.undoes == undoes && Harmless(cb) && BreakOf(items, cb, store) == f
            && Executed(items, cb, true, store).0.status.RolledBack?
            && Executed(items, cb, true, store).1 != store
  {
    hide Lookup, Executed, GivenBack, Ran, BreakOf, Numbered, Executions, NumberOf, SnapshotStop, Harmless;
    var cb, store := Counting(items, undoes, f), Numbered(items);
    BreaksAt(items, undoes, f);
    RolledBackWhenBroken(items, cb, store);
    NumberedCounts(items);
    LeavesExactly(items, cb, store);
    var i :| 0 <= i < f && GivenBack(items, undoes, f, items[i].subscriptionId) != Some(items[i].subscriptionId);
    var s := items[i].subscriptionId;
    ExecutionsGrow(items, s, i, f);
    var from := GivenBack(items, undoes, f, s);
    if from.Some? {
      GivenBackIsThere(items, undoes, f, s);
      NumbersDiffer(items, s, from.value);
    }
    assert Lookup(Executed(items, cb, true, store).1, s) != Lookup(store, s);
  }

  lemma RolledBackWhenBroken<S>(items: seq<Item>, cb: Callbacks<S>, store: Store<S>)
    requires SnapshotStop(items, cb) == |items| && Ran(items, cb, store).failure.Some?
        && Ran(items, cb, store).failure.value != ""
    ensures Executed(items, cb, true, store).0.status.RolledBack?
  {
    hide After, Prepared, Undone, Snapshots, SnapshotStop, Filter;
  }

  lemma GivenBackIsThere(items: seq<Item>, undoes: Item -> bool, f: nat, s: string)
    requires f < |items| && GivenBack(items, undoes, f, s).Some?
    ensures exists i :: 0 <= i < |items| && items[i].subscriptionId == GivenBack(items, undoes, f, s).value
  {
    var j := Restorer(items, undoes, f, s, |items|);
    assert items[Last(items, j)].subscriptionId == GivenBack(items, undoes, f, s).value;
  }

  lemma NumbersDiffer(items: seq<Item>, s: string, t: string)
    requires s != t && (exists i :: 0 <= i < |items| && items[i].subscriptionId == s)
    ensures NumberOf(items, s) != NumberOf(items, t)
  {
  }

  lemma BreaksAt(items: seq<Item>, undoes: Item -> bool, f: nat)
    requires f < |items|
    ensures var cb, store := Counting(items, undoes, f), Numbered(items);
            && Harmless(cb) && BreakOf(items, cb, store) == f && Ran(items, cb, store).failure == Some("failed")
            && CountedUp(items, Ran(items, cb, store).store, f)
            && SnapshotStop(items, cb) == |items|
  {
    hide Lookup, NumberOf, Numbered, Executions, FindIndex, ResultsFor, Prepared, CountedUp, Step, After, Stop;
    var cb, store := Counting(items, undoes, f), Numbered(items);
    var start := Progress(store, Prepared(items, cb, |items|), None);
    PreparedFor(items, cb);
    CountsUp(items, undoes, f, start, f);
    AfterNext(items, cb, true, start, f);
    CountOne(items, undoes, f, After(items, cb, true, start, f), f);
    StaysBroken(items, cb, true, start, f + 1, |items|);
    StopsThere(items, cb, start, f, |items|);
  }

  lemma {:induction false} StopsThere<S>(items: seq<Item>, cb: Callbacks<S>, start: Progress<S>, f: nat, n: nat)
    requires f < n <= |items| && ResultsFor(start.results, items) && start.failure.None?
    requires After(items, cb, true, start, f).failure.None? && After(items, cb, true, start, f + 1).failure.Some?
    ensures Stop(items, cb, start, n) == f
  {
    hide After, ResultsFor;
    if f < n - 1 {
      StaysBroken(items, cb, true, start, f + 1, n - 1);
      StopsThere(items, cb, start, f, n - 1);
    }
  }

  // ------------------------------------------------------------------ unique ids

  /** A subscription that some succeeded item is rolled back on. */
  ghost predicate Covered<S>(items: seq<Item>, cb: Callbacks<S>, f: nat, s: string)
    requires f <= |items|
  {
    exists i :: 0 <= i < f && items[i].subscriptionId == s && cb.undoes(items[i])
  }

  lemma CoveredComesBack<S>(items: seq<Item>, cb: Callbacks<S>, f: nat, s: string)
    requires UniqueIds(items) && f < |items|
    ensures GivenBack(items, cb.undoes, f, s) == if Covered(items, cb, f, s) then Some(s) else None
  {
    hide Restorer, First, Last;
    InPlace(items);
    if Covered(items, cb, f, s) {
      var i :| 0 <= i < f && items[i].subscriptionId == s && cb.undoes(items[i]);
      assert Restores(items, cb.undoes, f, i);
    }
  }

  /** With unique ids, a rolled-back batch leaves the store exactly as it found it if and
      only if the subscription on which it broke off is, for an item before on the same
      one, put back with the rest, or was left unchanged. */
  lemma RollsBackExactly<S>(items: seq<Item>, cb: Callbacks<S>, store: Store<S>)
    requires UniqueIds(items) && forall i :: 0 <= i < |items| ==> cb.undoes(items[i])
    requires Executed(items, cb, true, store).0.status.RolledBack?
    ensures var f := BreakOf(items, cb, store);
            && f < |items|
            && (Executed(items, cb, true, store).1 == store
                <==> Covered(items, cb, f, items[f].subscriptionId)
                     || Lookup(Ran(items, cb, store).store, items[f].subscriptionId)
                       == Lookup(store, items[f].subscriptionId))
  {
    hide Executed, Ran, BreakOf, Lookup, UniqueIds, GivenBack;
    LeavesExactly(items, cb, store);
    var p, f, after := Ran(items, cb, store), BreakOf(items, cb, store), Executed(items, cb, true, store).1;
    forall s ensures s != items[f].subscriptionId ==> Lookup(after, s) == Lookup(store, s) {
      CoveredComesBack(items, cb, f, s);
      assert Covered(items, cb, f, s) || forall i :: 0 <= i < f ==> items[i].subscriptionId != s;
    }
    CoveredComesBack(items, cb, f, items[f].subscriptionId);
    if Covered(items, cb, f, items[f].subscriptionId)
      || Lookup(p.store, items[f].subscriptionId) == Lookup(store, items[f].subscriptionId) {
      SameLookups(after, store);
    }
  }

  lemma UniqueSuccesses(items: seq<Item>, results: seq<ItemResult>, f: nat)
    requires UniqueIds(items) && f <= |items| && SuccessesAre(items, results, f, |items|)
    ensures |results| == |items| && forall i :: 0 <= i < |items| ==> (results[i].success <==> i < f)
  {
    hide First, Last;
    InPlace(items);
  }

  /** What the report of an atomic batch tells: it counts the items before the break
      as done or rolled back and all others, executed or not, as failed. A committed
      one means that every item succeeded exactly when the batch did not break off on
      an error without a message. */
  lemma ReportExactly<S>(items: seq<Item>, cb: Callbacks<S>, store: Store<S>)
    requires UniqueIds(items) && !Executed(items, cb, true, store).0.status.Failed?
    ensures var report, f := Executed(items, cb, true, store).0, BreakOf(items, cb, store);
            && report.failedItems == |items| - f
            && (report.status.RolledBack? ==> report.succeededItems == 0 && report.rolledBackItems == f)
            && (report.status.Committed? ==> report.succeededItems == f && report.rolledBackItems == 0)
            && (report.status.Committed? ==>
                  ((forall r :: r in report.items ==> r.success) <==> Ran(items, cb, store).failure != Some("")))
  {
    hide After, Undone, Snapshots, Lookup, UniqueIds, Prepared, Stop, SuccessesAre;
    var p, f := Ran(items, cb, store), BreakOf(items, cb, store);
    BreaksOffOnce(items, cb, Progress(store, Prepared(items, cb, |items|), None), |items|);
    UniqueSuccesses(items, p.results, f);
    FilterRun(p.results, 0, f, Succeeded);
    FilterRun(p.results, f, |items|, Unsuccessful);
    assert f < |items| ==> p.results[f] in p.results;
  }

  /** Without unique ids there is no going back: the failure of the second item is
      written over the success of the first, whose change stays. */
  lemma DuplicateIdsKeepChanges()
    ensures var items := [Item("x", "a", "pause", ""), Item("x", "b", "pause", "")];
            var cb := Callbacks((i: Item, s: Option<int>) =>
                                  if i.subscriptionId == "a" then Done(Some(1)) else Threw("boom", s),
                                (i: Item) => None, (i: Item) => true);
            var (report, after) := Executed(items, cb, true, map["a" := 0, "b" := 0]);
            report.status.RolledBack? && "a" in after && after["a"] == 1
  {
    var first, second := Item("x", "a", "pause", ""), Item("x", "b", "pause", "");
    var items := [first, second];
    var cb := Callbacks((i: Item, s: Option<int>) =>
                          if i.subscriptionId == "a" then Done(Some(1)) else Threw("boom", s),
                        (i: Item) => None, (i: Item) => true);
    var store := map["a" := 0, "b" := 0];
    var prepared := Prepared(items, cb, 2);
    var start := Progress(store, prepared, None);
    assert SnapshotStop(items, cb) == 2;
    assert FindIndex(prepared, "x") == 0;
    var one := After(items, cb, true, start, 1);
    assert After(items, cb, true, start, 0) == start;
    assert one == Step(start, first, cb, true);
    assert one.failure.None? && Lookup(one.store, "a") == Some(1);
    assert FindIndex(one.results, "x") == 0;
    var two := After(items, cb, true, start, 2);
    assert two == Step(one, second, cb, true);
    assert !two.results[0].success && !two.results[1].success && Lookup(two.store, "a") == Some(1);
    var snapshots := Snapshots(items, cb, store, 2);
    assert Undone(items, two.results, snapshots, cb, two.store, 0) == two.store;
    assert Undone(items, two.results, snapshots, cb, two.store, 1) == two.store;
    assert Undone(items, two.results, snapshots, cb, two.store, 2) == two.store;
  }

  // ------------------------------------------------------------ idempotency keys

  /** The operations of the store's type, none of which has a separator in its name. */
  predicate PlainOperations(items: seq<Item>) {
    forall i :: 0 <= i < |items| ==> ':' !in items[i].operation && '|' !in items[i].operation
  }

  predicate PlainIds(items: seq<Item>) {
    forall i :: 0 <= i < |items| ==> '|' !in items[i].subscriptionId
  }

  predicate SamePairs(a: seq<Item>, b: seq<Item>) {
    && |a| == |b|
    && forall i :: 0 <= i < |a| ==> a[i].subscriptionId == b[i].subscriptionId && a[i].operation == b[i].operation
  }

  lemma LastColon(item: Item)
    requires ':' !in item.operation
    ensures var at := |item.subscriptionId|;
            && at < |Tag(item)| && Tag(item)[at] == ':' && (forall k :: at < k < |Tag(item)| ==> Tag(item)[k] != ':')
            && Tag(item)[..at] == item.subscriptionId && Tag(item)[at + 1..] == item.operation
  {
    var at := |item.subscriptionId|;
    assert Tag(item)[at + 1..] == item.operation;
    forall k | at < k < |Tag(item)| ensures Tag(item)[k] != ':' {
      assert Tag(item)[k] == item.operation[k - at - 1];
    }
  }

  lemma TagTells(a: Item, b: Item)
    requires ':' !in a.operation && ':' !in b.operation && Tag(a) == Tag(b)
    ensures a.subscriptionId == b.subscriptionId && a.operation == b.operation
  {
    hide Tag;
    LastColon(a);
    LastColon(b);
  }

  /** Where no subscription id has a '|', the hashed text is the same exactly for the same
      subscriptions and operations, whatever the payloads. */
  lemma SameTextExactly(a: seq<Item>, b: seq<Item>)
    requires PlainOperations(a) && PlainOperations(b) && PlainIds(a) && PlainIds(b)
    ensures KeyText(a) == KeyText(b) <==> SamePairs(a, b)
  {
    hide Tag, Join;
    var s, t := Map(a, Tag), Map(b, Tag);
    if SamePairs(a, b) {
      SameTags(a, b);
    } else if KeyText(a) == KeyText(b) {
      NoBars(a);
      NoBars(b);
      EmptyText(a);
      EmptyText(b);
      if a != [] {
        SplitUndoesJoin(s, '|');
        SplitUndoesJoin(t, '|');
        forall i | 0 <= i < |a| ensures a[i].subscriptionId == b[i].subscriptionId && a[i].operation == b[i].operation {
          assert s[i] == t[i];
          TagTells(a[i], b[i]);
        }
      }
    }
  }

  lemma SameTags(a: seq<Item>, b: seq<Item>)
    requires SamePairs(a, b)
    ensures Map(a, Tag) == Map(b, Tag)
  {
  }

  lemma NoBars(a: seq<Item>)
    requires PlainOperations(a) && PlainIds(a)
    ensures forall i :: 0 <= i < |a| ==> '|' !in Map(a, Tag)[i]
  {
  }

  lemma EmptyText(a: seq<Item>)
    ensures KeyText(a) == "" <==> a == []
  {
    if a != [] {
      assert |Map(a, Tag)[0]| > 0;
    }
  }

  /** With a '|' in an id the text tells nothing: any batch of several items has the same
      as a single item. */
  lemma OneItemSharesText(items: seq<Item>, id: string)
    requires |items| > 1
    ensures var last := |items| - 1;
            var one := Item(id, KeyText(items[..last]) + "|" + items[last].subscriptionId, items[last].operation, "");
            KeyText([one]) == KeyText(items)
  {
    var last := |items| - 1;
    var tags := Map(items, Tag);
    JoinLast(Map(items[..last], Tag), Tag(items[last]), "|");
    assert tags == Map(items[..last], Tag) + [Tag(items[last])];
    var one := Item(id, KeyText(items[..last]) + "|" + items[last].subscriptionId, items[last].operation, "");
    assert Map([one], Tag) == [Tag(one)];
  }

  lemma {:induction false} JoinLast(pieces: seq<string>, last: string, sep: string)
    requires pieces != []
    ensures Join(pieces + [last], sep) == Join(pieces, sep) + sep + last
  {
    if |pieces| > 1 {
      JoinLast(pieces[1..], last, sep);
      assert (pieces + [last])[1..] == pieces[1..] + [last];
    }
  }

  /** The key sees subscriptions and operations only. */
  lemma KeyIgnoresPayload(a: seq<Item>, b: seq<Item>)
    requires SamePairs(a, b)
    ensures IdempotencyKey(a) == IdempotencyKey(b)
  {
    SameTags(a, b);
  }

  /** Nor does it tell all of those apart: whatever the operation and the items that
      follow, a first item on "a6" and one on "gp" make the same key. Once one of the
      two batches has run, the other is refused as its duplicate. */
  lemma DifferentBatchesShareKey(first: Item, second: Item, rest: seq<Item>)
    requires first.subscriptionId == "a6" && second.subscriptionId == "gp" && first.operation == second.operation
    ensures IdempotencyKey([first] + rest) == IdempotencyKey([second] + rest)
    ensures KeyText([first] + rest) != KeyText([second] + rest)
  {
    hide Checksum, Units;
    var tail := ":" + first.operation + if rest == [] then "" else "|" + KeyText(rest);
    TextOf(first, rest, tail);
    TextOf(second, rest, tail);
    assert ("a6" + tail)[0] == 'a' && ("gp" + tail)[0] == 'g';
    UnitsAppend("a6", tail);
    UnitsAppend("gp", tail);
    ShortCollision();
    CollisionExtends(Units("a6"), Units("gp"), Units(tail));
  }

  lemma TextOf(item: Item, rest: seq<Item>, tail: string)
    requires tail == ":" + item.operation + if rest == [] then "" else "|" + KeyText(rest)
    ensures KeyText([item] + rest) == item.subscriptionId + tail
  {
    var tags := Map([item] + rest, Tag);
    assert tags[1..] == Map(rest, Tag);
  }
}
