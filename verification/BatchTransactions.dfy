/** The batch runner with its idempotency ledger, retry and rollback. */
module BatchTransactions {
  import opened Sequences

  datatype Op = Create | Update | Charge | Cancel

  datatype Status = Success | Failed | Skipped

  /** Why an item stands where it does. */
  datatype Note = Plain | AtomicSkip | AlreadyApplied | TakenBack | Reverted

  datatype Item = Item(index: nat, id: string, status: Status, retryCount: nat, note: Note)

  /** What an executor answers; `id` is empty when it names no subscription. */
  datatype Outcome = Outcome(success: bool, id: string)

  datatype BatchState = Completed | Partial | FailedBatch | RolledBack

  datatype Batch = Batch(
    op: Op, state: BatchState, rolledBack: bool, total: nat,
    successes: int, failures: int, skips: int, results: seq<Item>)

  datatype Config = Config(
    maxItems: nat, chunkSize: int, atomicDefault: bool, allowRollback: bool, maxRetries: nat, idempotent: bool)

  type Key = (Op, string)

  /** What happened to a subscription: an executor applied an operation, a rollback
      handler undid it, or an atomic abort, which calls nobody, forgot it. */
  datatype Event = Applied(key: Key) | Undone(key: Key) | Discarded(key: Key)

  /** The service: its ledger, its last batch, and (for the proofs) what it did. */
  datatype Service = Service(ledger: set<Key>, current: Option<Batch>, trace: seq<Event>)

  const MAX_CHUNK_SIZE := 200

  function ChunkSize(c: Config): (n: nat)
    ensures 1 <= n <= MAX_CHUNK_SIZE
  {
    if c.chunkSize < 1 then 1 else if c.chunkSize > MAX_CHUNK_SIZE then MAX_CHUNK_SIZE else c.chunkSize
  }

  // ---------------------------------------------------------------- the run

  datatype Progress = Progress(
    ledger: set<Key>, results: seq<Item>, aborted: bool,
    successes: int, failures: int, skips: int, trace: seq<Event>)

  /** What to run: an operation over `ids`, answered by `apply` at each index. */
  datatype Job = Job(op: Op, ids: seq<string>, apply: nat -> Outcome, idempotent: bool, atomic: bool)

  function ResultId(job: Job, i: nat): string
    requires i < |job.ids|
  {
    if job.apply(i).id == "" then job.ids[i] else job.apply(i).id
  }

  function RunItem(job: Job, i: nat, p: Progress): Progress
    requires i < |job.ids|
  {
    var key := (job.op, job.ids[i]);
    if p.aborted then
      p.(results := p.results + [Item(i, job.ids[i], Skipped, 0, AtomicSkip)], skips := p.skips + 1)
    else if job.idempotent && key in p.ledger then
      p.(results := p.results + [Item(i, job.ids[i], Skipped, 0, AlreadyApplied)], skips := p.skips + 1)
    else if job.apply(i).success then
      p.(results := p.results + [Item(i, ResultId(job, i), Success, 0, Plain)],
         ledger := if job.idempotent then p.ledger + {key} else p.ledger,
         successes := p.successes + 1, trace := p.trace + [Applied(key)])
    else
      p.(results := p.results + [Item(i, ResultId(job, i), Failed, 0, Plain)],
         failures := p.failures + 1, aborted := job.atomic)
  }

  function Start(s: Service): Progress {
    Progress(s.ledger, [], false, 0, 0, 0, s.trace)
  }

  /** The first `n` items of the job, one after the other. */
  function RunItems(s: Service, job: Job, n: nat): Progress
    requires n <= |job.ids|
  {
    if n == 0 then Start(s) else RunItem(job, n - 1, RunItems(s, job, n - 1))
  }

  /** Takes back the success at `k`, if it is one. */
  function DiscardItem(op: Op, k: nat, p: Progress): Progress
    requires k < |p.results|
  {
    var item := p.results[k];
    if item.status.Success? then
      p.(results := p.results[k := item.(status := Skipped, note := TakenBack)],
         ledger := p.ledger - {(op, item.id)}, skips := p.skips + 1, trace := p.trace + [Discarded((op, item.id))])
    else p
  }

  function Discard(op: Op, p: Progress, n: nat): (q: Progress)
    requires n <= |p.results|
    ensures |q.results| == |p.results|
  {
    if n == 0 then p else DiscardItem(op, n - 1, Discard(op, p, n - 1))
  }

  /** What a run leaves behind once all items are through. */
  function Finish(op: Op, atomic: bool, p: Progress): Service {
    var rolledBack := atomic && p.failures > 0;
    var q := if rolledBack then Discard(op, p, |p.results|).(successes := 0) else p;
    var state := if rolledBack then FailedBatch else if p.failures == 0 then Completed else Partial;
    Service(q.ledger, Some(Batch(op, state, rolledBack, |p.results|, q.successes, q.failures, q.skips, q.results)),
            q.trace)
  }

  predicate Accepted(count: nat, c: Config) {
    0 < count <= c.maxItems
  }

  function Run(s: Service, job: Job, c: Config): Service {
    if Accepted(|job.ids|, c) then Finish(job.op, job.atomic, RunItems(s, job, |job.ids|))
    else s.(current := Some(Batch(job.op, FailedBatch, false, |job.ids|, 0, 0, 0, [])))
  }

  // -------------------------------------------------------- retry, rollback

  function RetryItem(b: Batch, k: nat, ok: bool, c: Config, s: Service): (Batch, Service)
    requires k < |b.results|
  {
    var item := b.results[k];
    if !item.status.Failed? || item.retryCount >= c.maxRetries then (b, s)
    else if ok then
      var key := (b.op, item.id);
      (b.(results := b.results[k := item.(status := Success, retryCount := item.retryCount + 1)],
          successes := b.successes + 1, failures := b.failures - 1),
       s.(ledger := if c.idempotent then s.ledger + {key} else s.ledger, trace := s.trace + [Applied(key)]))
    else (b.(results := b.results[k := item.(retryCount := item.retryCount + 1)]), s)
  }

  function RetryItems(b: Batch, retry: nat -> bool, c: Config, s: Service, n: nat): (r: (Batch, Service))
    requires n <= |b.results|
    ensures |r.0.results| == |b.results|
  {
    if n == 0 then (b, s)
    else
      var (b', s') := RetryItems(b, retry, c, s, n - 1);
      RetryItem(b', n - 1, retry(n - 1), c, s')
  }

  predicate HasFailure(results: seq<Item>) {
    exists i :: 0 <= i < |results| && results[i].status.Failed?
  }

  function Retry(s: Service, retry: nat -> bool, c: Config): Service {
    if s.current.None? || !HasFailure(s.current.value.results) then s
    else
      var b := s.current.value;
      var (b', s') := RetryItems(b, retry, c, s, |b.results|);
      s'.(current := Some(b'.(state := if b'.failures == 0 then Completed else Partial)))
  }

  predicate CanRollback(s: Service, c: Config) {
    && s.current.Some?
    && !s.current.value.rolledBack && !s.current.value.state.RolledBack?
    && s.current.value.successes != 0
    && c.allowRollback
  }

  /** The tally of a rollback: the results so far, and how many went each way. */
  datatype Undo = Undo(ledger: set<Key>, results: seq<Item>, reverted: nat, failed: nat, trace: seq<Event>)

  function UndoItem(op: Op, k: nat, ok: bool, u: Undo): Undo
    requires k < |u.results|
  {
    var item := u.results[k];
    if !item.status.Success? then u
    else if ok then
      Undo(u.ledger - {(op, item.id)}, u.results[k := item.(status := Skipped, note := Reverted)],
           u.reverted + 1, u.failed, u.trace + [Undone((op, item.id))])
    else u.(results := u.results[k := item.(status := Failed)], failed := u.failed + 1)
  }

  function UndoItems(s: Service, b: Batch, undo: nat -> bool, n: nat): (u: Undo)
    requires n <= |b.results|
    ensures |u.results| == |b.results|
  {
    if n == 0 then Undo(s.ledger, b.results, 0, 0, s.trace)
    else UndoItem(b.op, n - 1, undo(n - 1), UndoItems(s, b, undo, n - 1))
  }

  function Rollback(s: Service, undo: nat -> bool, c: Config): Service {
    if !CanRollback(s, c) then s
    else
      var b := s.current.value;
      var u := UndoItems(s, b, undo, |b.results|);
      var clean := u.failed == 0;
      Service(u.ledger,
        Some(b.(results := u.results, state := if clean then RolledBack else Partial, rolledBack := clean,
                successes := b.successes - u.reverted, failures := b.failures + u.failed,
                skips := b.skips + u.reverted)),
        u.trace)
  }

  // ------------------------------------------------------------ the service

  class BatchTransactionService {
    var appliedItems: set<Key>
    var currentResult: Option<Batch>
    var configs: map<Op, Config>
    ghost var trace: seq<Event>

    ghost predicate Valid()
      reads this
    {
      forall op: Op :: op in configs
    }

    ghost function State(): Service
      reads this
    {
      Service(appliedItems, currentResult, trace)
    }

    constructor (configs: map<Op, Config>)
      requires forall op: Op :: op in configs
      ensures Valid() && State() == Service({}, None, []) && this.configs == configs
    {
      appliedItems, currentResult, trace := {}, None, [];
      this.configs := configs;
    }

    /** Applies a job chunk by chunk. The outcome does not depend on the chunk size. */
    method RunBatch(op: Op, ids: seq<string>, apply: nat -> Outcome, atomicOption: Option<bool>)
      requires Valid()
      modifies this
      ensures Valid() && configs == old(configs)
      ensures var atomic := if atomicOption.Some? then atomicOption.value else configs[op].atomicDefault;
              State() == Run(old(State()), Job(op, ids, apply, configs[op].idempotent, atomic), configs[op])
      ensures |ids| == 0 || |ids| > configs[op].maxItems ==>
                && appliedItems == old(appliedItems) && trace == old(trace)
                && currentResult == Some(Batch(op, FailedBatch, false, |ids|, 0, 0, 0, []))
    {
      var config := configs[op];
      var atomic := if atomicOption.Some? then atomicOption.value else config.atomicDefault;
      ghost var s, job := State(), Job(op, ids, apply, config.idempotent, atomic);
      if |ids| == 0 || |ids| > config.maxItems {
        currentResult := Some(Batch(op, FailedBatch, false, |ids|, 0, 0, 0, []));
        return;
      }
      var results, aborted, successes, failures, skips := ApplyChunks(op, ids, apply, config, atomic, s, job);
      var rolledBack := atomic && failures > 0;
      var state := if rolledBack then FailedBatch else if failures == 0 then Completed else Partial;
      RunLength(s, job, |ids|);
      if rolledBack {
        results, skips := DiscardSuccesses(op, results, skips, RunItems(s, job, |ids|));
        successes := 0;
      }
      currentResult := Some(Batch(op, state, rolledBack, |ids|, successes, failures, skips, results));
    }

    /** The nested loops over chunks and over the items of a chunk. */
    method ApplyChunks(op: Op, ids: seq<string>, apply: nat -> Outcome, config: Config, atomic: bool,
                       ghost s: Service, ghost job: Job)
      returns (results: seq<Item>, aborted: bool, successes: int, failures: int, skips: int)
      requires s == State() && job == Job(op, ids, apply, config.idempotent, atomic)
      modifies this
      ensures configs == old(configs) && currentResult == old(currentResult)
      ensures Progress(appliedItems, results, aborted, successes, failures, skips, trace) == RunItems(s, job, |ids|)
    {
      hide RunItem;
      results, aborted, successes, failures, skips := [], false, 0, 0, 0;
      var offset := 0;
      while offset < |ids|
        invariant 0 <= offset && configs == old(configs) && currentResult == old(currentResult)
        invariant Progress(appliedItems, results, aborted, successes, failures, skips, trace)
                  == RunItems(s, job, if offset < |ids| then offset else |ids|)
      {
        var chunk := ids[offset..if offset + ChunkSize(config) < |ids| then offset + ChunkSize(config) else |ids|];
        for j := 0 to |chunk|
          invariant configs == old(configs) && currentResult == old(currentResult)
          invariant Progress(appliedItems, results, aborted, successes, failures, skips, trace)
                    == RunItems(s, job, offset + j)
        {
          results, aborted, successes, failures, skips :=
            ApplyItem(op, chunk[j], offset + j, apply, config, atomic, results, aborted, successes, failures, skips,
                      job);
        }
        offset := offset + ChunkSize(config);
      }
    }

    /** One item: skipped after an abort or when already applied, else applied. */
    method ApplyItem(op: Op, id: string, index: nat, apply: nat -> Outcome, config: Config, atomic: bool,
                     results0: seq<Item>, aborted0: bool, successes0: int, failures0: int, skips0: int, ghost job: Job)
      returns (results: seq<Item>, aborted: bool, successes: int, failures: int, skips: int)
      requires index < |job.ids| && id == job.ids[index] && job == Job(op, job.ids, apply, config.idempotent, atomic)
      modifies this
      ensures configs == old(configs) && currentResult == old(currentResult)
      ensures Progress(appliedItems, results, aborted, successes, failures, skips, trace)
              == RunItem(job, index, Progress(old(appliedItems), results0, aborted0, successes0, failures0, skips0,
                                              old(trace)))
    {
      results, aborted, successes, failures, skips := results0, aborted0, successes0, failures0, skips0;
      var key := (op, id);
      if aborted {
        results, skips := results + [Item(index, id, Skipped, 0, AtomicSkip)], skips + 1;
        return;
      }
      if config.idempotent && key in appliedItems {
        results, skips := results + [Item(index, id, Skipped, 0, AlreadyApplied)], skips + 1;
        return;
      }
      var outcome := apply(index);
      var status := if outcome.success then Success else Failed;
      var item := Item(index, if outcome.id != "" then outcome.id else id, status, 0, Plain);
      if outcome.success {
        if config.idempotent { appliedItems := appliedItems + {key}; }
        successes := successes + 1;
        trace := trace + [Applied(key)];
      } else {
        failures := failures + 1;
        if atomic { aborted := true; }
      }
      results := results + [item];
    }

    /** The loop that takes the successes of a failed atomic run back. */
    method DiscardSuccesses(op: Op, items: seq<Item>, skipped: int, ghost p: Progress)
      returns (results: seq<Item>, skips: int)
      requires p.results == items && p.ledger == appliedItems && p.trace == trace && p.skips == skipped
      modifies this
      ensures configs == old(configs) && currentResult == old(currentResult)
      ensures p.(ledger := appliedItems, results := results, skips := skips, trace := trace) == Discard(op, p, |items|)
    {
      results, skips := items, skipped;
      for k := 0 to |items|
        invariant configs == old(configs) && currentResult == old(currentResult) && |results| == |items|
        invariant p.(ledger := appliedItems, results := results, skips := skips, trace := trace) == Discard(op, p, k)
      {
        var item := results[k];
        if !item.status.Success? { continue; }
        appliedItems := appliedItems - {(op, item.id)};
        results := results[k := item.(status := Skipped, note := TakenBack)];
        skips := skips + 1;
        trace := trace + [Discarded((op, item.id))];
      }
    }

    /** Gives every failed item of the last batch that is below the limit another try;
        `tried` records those handed to the handler. */
    method RetryFailedItems(retry: nat -> bool) returns (ghost tried: seq<nat>)
      requires Valid()
      modifies this
      ensures Valid() && configs == old(configs)
      ensures tried == if old(currentResult).None? then []
                       else var b := old(currentResult).value; ToTry(b.results, configs[b.op].maxRetries, |b.results|)
      ensures State() == if old(currentResult).None? then old(State())
                         else Retry(old(State()), retry, configs[old(currentResult).value.op])
    {
      tried := [];
      if currentResult.None? { return; }
      hide ToTry, HasFailure;
      var b := currentResult.value;
      var config := configs[b.op];
      NothingToTry(b.results, config.maxRetries, |b.results|);
      if !HasFailure(b.results) { return; }
      ghost var s := State();
      var results, successes, failures := b.results, b.successes, b.failures;
      for k := 0 to |b.results|
        invariant configs == old(configs) && currentResult == old(currentResult) && |results| == |b.results|
        invariant (b.(results := results, successes := successes, failures := failures), State())
                  == RetryItems(b, retry, config, s, k)
        invariant tried == ToTry(b.results, config.maxRetries, k)
        invariant forall i :: k <= i < |results| ==> results[i] == b.results[i]
      {
        var item := results[k];
        ToTryNext(b.results, config.maxRetries, k);
        if !item.status.Failed? || item.retryCount >= config.maxRetries { continue; }
        tried := tried + [k];
        if retry(k) {
          results := results[k := item.(status := Success, retryCount := item.retryCount + 1)];
          if config.idempotent { appliedItems := appliedItems + {(b.op, item.id)}; }
          successes, failures := successes + 1, failures - 1;
          trace := trace + [Applied((b.op, item.id))];
        } else {
          results := results[k := item.(retryCount := item.retryCount + 1)];
        }
      }
      currentResult := Some(b.(results := results, successes := successes, failures := failures,
                               state := if failures == 0 then Completed else Partial));
    }

    /** Undoes every committed item of the last batch. */
    method RollbackBatch(undo: nat -> bool) returns (ran: bool)
      requires Valid()
      modifies this
      ensures Valid() && configs == old(configs)
      ensures ran == (match old(currentResult)
                      case None => false
                      case Some(b) => !b.rolledBack && b.state != RolledBack && b.successes != 0
                                      && configs[b.op].allowRollback)
      ensures !ran ==> State() == old(State())
      ensures State() == if old(currentResult).None? then old(State())
                         else Rollback(old(State()), undo, configs[old(currentResult).value.op])
    {
      if currentResult.None? { return false; }
      var b := currentResult.value;
      if b.rolledBack || b.state.RolledBack? || b.successes == 0 || !configs[b.op].allowRollback { return false; }
      ghost var s := State();
      var results, reverted, failed := b.results, 0, 0;
      for k := 0 to |b.results|
        invariant configs == old(configs) && currentResult == old(currentResult) && |results| == |b.results|
        invariant Undo(appliedItems, results, reverted, failed, trace) == UndoItems(s, b, undo, k)
      {
        var item := results[k];
        if !item.status.Success? { continue; }
        if undo(k) {
          reverted := reverted + 1;
          appliedItems := appliedItems - {(b.op, item.id)};
          results := results[k := item.(status := Skipped, note := Reverted)];
          trace := trace + [Undone((b.op, item.id))];
        } else {
          failed := failed + 1;
          results := results[k := item.(status := Failed)];
        }
      }
      currentResult := Some(b.(results := results, state := if failed == 0 then RolledBack else Partial,
                               rolledBack := failed == 0, successes := b.successes - reverted,
                               failures := b.failures + failed, skips := b.skips + reverted));
      return true;
    }
  }

  lemma {:induction false} RunLength(s: Service, job: Job, n: nat)
    requires n <= |job.ids|
    ensures |RunItems(s, job, n).results| == n
  {
    if n > 0 { RunLength(s, job, n - 1); }
  }

  // ------------------------------------------------------------- accounting

  function Count(results: seq<Item>, status: Status): nat {
    if results == [] then 0
    else
      var last := |results| - 1;
      Count(results[..last], status) + if results[last].status == status then 1 else 0
  }

  lemma {:induction false} CountSnoc(results: seq<Item>, item: Item, status: Status)
    ensures Count(results + [item], status) == Count(results, status) + if item.status == status then 1 else 0
  {
    assert (results + [item])[..|results|] == results;
  }

  lemma {:induction false} CountUpdate(results: seq<Item>, k: nat, item: Item, status: Status)
    requires k < |results|
    ensures Count(results[k := item], status) ==
            Count(results, status) - (if results[k].status == status then 1 else 0)
                + (if item.status == status then 1 else 0)
  {
    var last := |results| - 1;
    if k == last {
      assert results[k := item][..last] == results[..last];
    } else {
      CountUpdate(results[..last], k, item, status);
      assert results[k := item][..last] == results[..last][k := item];
    }
  }

  lemma {:induction false} CountsCover(results: seq<Item>)
    ensures Count(results, Success) + Count(results, Failed) + Count(results, Skipped) == |results|
  {
    if results != [] { CountsCover(results[..|results| - 1]); }
  }

  lemma {:induction false} CountPositive(results: seq<Item>, status: Status)
    ensures Count(results, status) > 0 <==> exists i :: 0 <= i < |results| && results[i].status == status
  {
    if results != [] {
      var last := |results| - 1;
      CountPositive(results[..last], status);
      if i :| 0 <= i < |results| && results[i].status == status {
        assert i < last ==> results[..last][i].status == status;
      }
    }
  }

  ghost predicate InOrder(results: seq<Item>) {
    forall i :: 0 <= i < |results| ==> results[i].index == i
  }

  ghost predicate Tallied(results: seq<Item>, successes: int, failures: int, skips: int) {
    && successes == Count(results, Success)
    && failures == Count(results, Failed)
    && skips == Count(results, Skipped)
  }

  /** One result per index, in order, and counters that count. */
  ghost predicate Accounted(b: Batch) {
    && |b.results| == b.total && InOrder(b.results)
    && Tallied(b.results, b.successes, b.failures, b.skips)
  }

  lemma AccountedSum(b: Batch)
    requires Accounted(b)
    ensures b.successes + b.failures + b.skips == b.total
  {
    CountsCover(b.results);
  }

  lemma {:induction false} TallySnoc(results: seq<Item>, item: Item)
    ensures forall status :: Count(results + [item], status) ==
                             Count(results, status) + if item.status == status then 1 else 0
  {
    forall status { CountSnoc(results, item, status); }
  }

  lemma {:induction false} TallyUpdate(results: seq<Item>, k: nat, item: Item)
    requires k < |results|
    ensures forall status :: Count(results[k := item], status) ==
              Count(results, status) - (if results[k].status == status then 1 else 0)
                  + (if item.status == status then 1 else 0)
  {
    forall status { CountUpdate(results, k, item, status); }
  }

  /** The state of an unfinished run: nothing is a failure before an atomic abort,
      and one failure, followed by skips only, is the abort. */
  ghost predicate RunInvariant(job: Job, p: Progress) {
    && InOrder(p.results) && Tallied(p.results, p.successes, p.failures, p.skips)
    && (job.atomic ==> p.failures == if p.aborted then 1 else 0)
    && (!job.atomic ==> !p.aborted)
  }

  lemma {:induction false} RunItemsAccounted(s: Service, job: Job, n: nat)
    requires n <= |job.ids|
    ensures |RunItems(s, job, n).results| == n && RunInvariant(job, RunItems(s, job, n))
  {
    if n > 0 {
      RunItemsAccounted(s, job, n - 1);
      RunItemAccounted(job, n - 1, RunItems(s, job, n - 1));
    }
  }

  lemma RunItemAccounted(job: Job, i: nat, p: Progress)
    requires i < |job.ids| && |p.results| == i && RunInvariant(job, p)
    ensures RunInvariant(job, RunItem(job, i, p))
  {
    hide Count;
    var q := RunItem(job, i, p);
    TallySnoc(p.results, q.results[i]);
    assert q.results == p.results + [q.results[i]];
  }

  /** Half-way through taking back: the first `n` items are no longer successes. */
  ghost predicate DiscardInvariant(p: Progress, q: Progress, n: nat) {
    && |q.results| == |p.results| && InOrder(q.results)
    && q.failures == p.failures && Count(q.results, Failed) == p.failures
    && Count(q.results, Skipped) == q.skips
    && (forall i :: 0 <= i < |p.results| ==>
          if i < n then !q.results[i].status.Success? else q.results[i] == p.results[i])
  }

  lemma {:induction false} DiscardAccounted(op: Op, p: Progress, n: nat)
    requires n <= |p.results| && InOrder(p.results) && Tallied(p.results, p.successes, p.failures, p.skips)
    ensures DiscardInvariant(p, Discard(op, p, n), n)
  {
    hide Count;
    if n > 0 {
      DiscardAccounted(op, p, n - 1);
      var r := Discard(op, p, n - 1);
      TallyUpdate(r.results, n - 1, r.results[n - 1].(status := Skipped, note := TakenBack));
    }
  }

  /** Every accepted run accounts for every item, and a failed atomic run reports
      one failure and no success. */
  lemma RunAccounting(s: Service, job: Job, c: Config)
    requires Accepted(|job.ids|, c)
    ensures var b := Run(s, job, c).current.value;
            && Accounted(b) && b.total == |job.ids|
            && (job.atomic && b.failures > 0 ==>
                  b.failures == 1 && b.successes == 0 && b.rolledBack && b.state == FailedBatch)
            && (!(job.atomic && b.failures > 0) ==>
                !b.rolledBack && b.state == if b.failures == 0 then Completed else Partial)
  {
    var n := |job.ids|;
    var p := RunItems(s, job, n);
    RunItemsAccounted(s, job, n);
    if job.atomic && p.failures > 0 {
      DiscardAccounted(job.op, p, n);
      CountPositive(Discard(job.op, p, n).results, Success);
    }
  }

  /** What a retry may do to one item. */
  ghost predicate Retried(before: Item, after: Item, c: Config) {
    && after.id == before.id && after.index == before.index
    && (!before.status.Failed? ==> after == before)
    && (after.retryCount <= c.maxRetries || after == before)
  }

  lemma {:induction false} RetryItemsAccounted(b: Batch, retry: nat -> bool, c: Config, s: Service, n: nat)
    requires n <= |b.results| && Accounted(b)
    ensures var b' := RetryItems(b, retry, c, s, n).0;
            && Accounted(b') && b'.total == b.total && b'.op == b.op
            && (forall i :: 0 <= i < |b.results| ==>
                  if i < n then Retried(b.results[i], b'.results[i], c) else b'.results[i] == b.results[i])
  {
    hide Count;
    if n > 0 {
      RetryItemsAccounted(b, retry, c, s, n - 1);
      var (r, s') := RetryItems(b, retry, c, s, n - 1);
      RetryItemAccounted(r, n - 1, retry(n - 1), c, s');
    }
  }

  lemma RetryItemAccounted(b: Batch, k: nat, ok: bool, c: Config, s: Service)
    requires k < |b.results| && Accounted(b)
    ensures var b' := RetryItem(b, k, ok, c, s).0;
            && Accounted(b') && b'.total == b.total && b'.op == b.op
            && Retried(b.results[k], b'.results[k], c)
            && (forall i :: 0 <= i < |b.results| && i != k ==> b'.results[i] == b.results[i])
  {
    hide Count;
    TallyUpdate(b.results, k, RetryItem(b, k, ok, c, s).0.results[k]);
    assert b.results[k := b.results[k]] == b.results;
  }

  /** A retry keeps the accounts, touches failed items only, and never takes an
      item's retry count above the limit. */
  lemma RetryAccounting(s: Service, retry: nat -> bool, c: Config)
    requires s.current.Some? && Accounted(s.current.value)
    ensures var b, b' := s.current.value, Retry(s, retry, c).current.value;
            && Accounted(b') && b'.total == b.total
            && (HasFailure(b.results) ==> b'.state == if b'.failures == 0 then Completed else Partial)
            && forall i :: 0 <= i < b.total ==>
                 Retried(b.results[i], b'.results[i], c)
  {
    RetryItemsAccounted(s.current.value, retry, c, s, |s.current.value.results|);
  }

  /** What a retry makes of each item. */
  lemma {:induction false} RetryItemsTell(b: Batch, retry: nat -> bool, c: Config, s: Service, n: nat)
    requires n <= |b.results|
    ensures var b' := RetryItems(b, retry, c, s, n).0;
            && b'.rolledBack == b.rolledBack && b'.skips == b.skips
            && forall i :: 0 <= i < |b.results| ==>
                 && (i >= n ==> b'.results[i] == b.results[i])
                 && b'.results[i].status == if i < n && Retries(b, retry, c, i) then Success else b.results[i].status
  {
    if n > 0 { RetryItemsTell(b, retry, c, s, n - 1); }
  }

  /** A retry completes its batch exactly when it applies every failed item; and the
      completed batch has only successes exactly when none had been skipped before. */
  lemma RetryCompletesExactly(s: Service, retry: nat -> bool, c: Config)
    requires s.current.Some? && Accounted(s.current.value) && HasFailure(s.current.value.results)
    ensures var b, b' := s.current.value, Retry(s, retry, c).current.value;
            && (b'.state == Completed <==> forall i :: 0 <= i < |b.results| && b.results[i].status.Failed? ==>
                Retries(b, retry, c, i))
            && (b'.state == Completed ==> ((forall r :: r in b'.results ==> r.status.Success?) <==> b.skips == 0))
            && b'.rolledBack == b.rolledBack
  {
    hide RetryItems, Count, HasFailure;
    var b, b' := s.current.value, Retry(s, retry, c).current.value;
    RetryItemsTell(b, retry, c, s, |b.results|);
    RetryAccounting(s, retry, c);
    CountPositive(b'.results, Failed);
    CountPositive(b'.results, Skipped);
    forall i | 0 <= i < |b'.results| && !b'.results[i].status.Success?
      ensures !(forall r :: r in b'.results ==> r.status.Success?)
    {
      assert b'.results[i] in b'.results;
    }
  }

  /** After an atomic abort the retry of the one item that failed completes the batch
      with that single success: the others stay skipped, and there is no rolling back. */
  lemma AbortedRetryCompletes(s: Service, job: Job, retry: nat -> bool, c: Config)
    requires Accepted(|job.ids|, c) && job.atomic && Run(s, job, c).current.value.failures > 0
    ensures var t := Run(s, job, c);
            var u := Retry(t, retry, c);
            && HasFailure(t.current.value.results) && !CanRollback(u, c)
            && (u.current.value.state == Completed ==>
                u.current.value.successes == 1 && u.current.value.skips == |job.ids| - 1)
  {
    hide RunItems, Discard, RetryItems, Count;
    var t := Run(s, job, c);
    RunAccounting(s, job, c);
    var b := t.current.value;
    CountPositive(b.results, Failed);
    AccountedSum(b);
    RetryCompletesExactly(t, retry, c);
    RetryAccounting(t, retry, c);
    RetryItemsTell(b, retry, c, t, |b.results|);
    AccountedSum(Retry(t, retry, c).current.value);
  }

  /** The failed items below the limit, in order. */
  ghost function ToTry(items: seq<Item>, maxRetries: nat, n: nat): seq<nat>
    requires n <= |items|
  {
    if n == 0 then []
    else
      ToTry(items, maxRetries, n - 1)
      + if items[n - 1].status.Failed? && items[n - 1].retryCount < maxRetries then [n - 1] else []
  }

  lemma ToTryNext(items: seq<Item>, maxRetries: nat, n: nat)
    requires n < |items|
    ensures ToTry(items, maxRetries, n + 1)
            == ToTry(items, maxRetries, n)
               + if items[n].status.Failed? && items[n].retryCount < maxRetries then [n] else []
  {
  }

  lemma {:induction false} NothingToTry(items: seq<Item>, maxRetries: nat, n: nat)
    requires n <= |items|
    ensures !HasFailure(items) ==> ToTry(items, maxRetries, n) == []
    ensures ToTry(items, maxRetries, 0) == []
  {
    if n > 0 { NothingToTry(items, maxRetries, n - 1); }
  }

  /** One retry hands each failed item below the limit to the handler once, and no other. */
  lemma {:induction false} TriedOnce(items: seq<Item>, maxRetries: nat, n: nat)
    requires n <= |items|
    ensures var tried := ToTry(items, maxRetries, n);
            && (forall x, y :: 0 <= x < y < |tried| ==> tried[x] < tried[y])
            && (forall i: nat :: i in tried <==> i < n && items[i].status.Failed? && items[i].retryCount < maxRetries)
  {
    if n > 0 {
      TriedOnce(items, maxRetries, n - 1);
      var before := ToTry(items, maxRetries, n - 1);
      assert forall x :: 0 <= x < |before| ==> before[x] in before;
    }
  }

  lemma {:induction false} RetryItemsCount(b: Batch, retry: nat -> bool, c: Config, s: Service, n: nat)
    requires n <= |b.results|
    ensures var after := RetryItems(b, retry, c, s, n).0.results;
            forall i :: 0 <= i < |b.results| ==>
              var item := b.results[i];
              after[i] == if i < n && item.status.Failed? && item.retryCount < c.maxRetries
                          then item.(retryCount := item.retryCount + 1, status := if retry(i) then Success else Failed)
                          else item
  {
    hide RetryItem;
    if n > 0 {
      RetryItemsCount(b, retry, c, s, n - 1);
      var (b', s') := RetryItems(b, retry, c, s, n - 1);
      RetryItemCounts(b', n - 1, retry(n - 1), c, s');
    }
  }

  lemma RetryItemCounts(b: Batch, k: nat, ok: bool, c: Config, s: Service)
    requires k < |b.results|
    ensures var item, b' := b.results[k], RetryItem(b, k, ok, c, s).0;
            b'.results == b.results[k := if item.status.Failed? && item.retryCount < c.maxRetries
                                         then item.(retryCount := item.retryCount + 1,
                                                    status := if ok then Success else Failed)
                                         else item]
  {
  }

  /** A retry gives every failed item below the limit one try, whatever comes of it, and
      leaves every other item alone. */
  lemma RetryCounts(s: Service, retry: nat -> bool, c: Config)
    requires s.current.Some?
    ensures Retry(s, retry, c).current.Some?
    ensures var before, after := s.current.value.results, Retry(s, retry, c).current.value.results;
            |after| == |before| &&
            forall i :: 0 <= i < |before| ==>
              var item := before[i];
              after[i] == if item.status.Failed? && item.retryCount < c.maxRetries
                          then item.(retryCount := item.retryCount + 1, status := if retry(i) then Success else Failed)
                          else item
  {
    hide RetryItems;
    RetryItemsCount(s.current.value, retry, c, s, |s.current.value.results|);
  }

  /** One retry after the other, each with its own answers. */
  function RetryAll(s: Service, rounds: seq<nat -> bool>, c: Config): Service {
    if rounds == [] then s else Retry(RetryAll(s, rounds[..|rounds| - 1], c), rounds[|rounds| - 1], c)
  }

  /** How often they hand item `i` to the handler. */
  ghost function Tries(s: Service, rounds: seq<nat -> bool>, c: Config, i: nat): nat {
    if rounds == [] then 0
    else
      var before := rounds[..|rounds| - 1];
      var b := RetryAll(s, before, c).current;
      Tries(s, before, c, i) + if b.Some? && i in ToTry(b.value.results, c.maxRetries, |b.value.results|) then 1 else 0
  }

  /** The limit binds: over any number of retries an item is handed to the handler no more
      often than the limit leaves, and each time counts. */
  lemma {:induction false} RetriesAreBounded(s: Service, rounds: seq<nat -> bool>, c: Config, i: nat)
    requires s.current.Some? && i < |s.current.value.results|
    ensures var t := RetryAll(s, rounds, c);
            && t.current.Some? && |t.current.value.results| == |s.current.value.results|
            && t.current.value.results[i].retryCount == s.current.value.results[i].retryCount + Tries(s, rounds, c, i)
    ensures var count := s.current.value.results[i].retryCount;
            Tries(s, rounds, c, i) <= if count < c.maxRetries then c.maxRetries - count else 0
  {
    hide Retry, ToTry;
    if rounds != [] {
      var before := rounds[..|rounds| - 1];
      RetriesAreBounded(s, before, c, i);
      var t := RetryAll(s, before, c);
      RetryCounts(t, rounds[|rounds| - 1], c);
      TriedOnce(t.current.value.results, c.maxRetries, |t.current.value.results|);
    }
  }

  // ------------------------------------------------- what becomes of each item

  /** An item before which an atomic run has failed. */
  ghost predicate Stopped(job: Job, results: seq<Item>, i: nat)
    requires i <= |results|
  {
    job.atomic && exists j :: 0 <= j < i && results[j].status.Failed?
  }

  /** An item whose operation was applied already, in the run or before it. */
  ghost predicate Known(s: Service, job: Job, results: seq<Item>, i: nat)
    requires i <= |results| && i < |job.ids| && |results| <= |job.ids|
  {
    job.idempotent
    && ((job.op, job.ids[i]) in s.ledger
        || exists j :: 0 <= j < i && job.ids[j] == job.ids[i] && results[j].status.Success?)
  }

  /** What a run makes of an item, up to an abort. */
  ghost function Told(s: Service, job: Job, results: seq<Item>, i: nat): Item
    requires i <= |results| && i < |job.ids| && |results| <= |job.ids|
  {
    if Stopped(job, results, i) then Item(i, job.ids[i], Skipped, 0, AtomicSkip)
    else if Known(s, job, results, i) then Item(i, job.ids[i], Skipped, 0, AlreadyApplied)
    else
      var answer := job.apply(i);
      Item(i, if answer.id == "" then job.ids[i] else answer.id, if answer.success then Success else Failed, 0, Plain)
  }

  ghost predicate AbortedSoFar(job: Job, p: Progress) {
    p.aborted <==> Stopped(job, p.results, |p.results|)
  }

  ghost predicate LedgerSoFar(s: Service, job: Job, p: Progress)
    requires |p.results| <= |job.ids|
  {
    forall key :: key in p.ledger <==>
      || key in s.ledger
      || (job.idempotent
          && exists j :: 0 <= j < |p.results| && (job.op, job.ids[j]) == key && p.results[j].status.Success?)
  }

  ghost predicate ToldSoFar(s: Service, job: Job, p: Progress)
    requires |p.results| <= |job.ids|
  {
    forall i :: 0 <= i < |p.results| ==> p.results[i] == Told(s, job, p.results, i)
  }

  ghost predicate RunSoFar(s: Service, job: Job, p: Progress) {
    |p.results| <= |job.ids| && AbortedSoFar(job, p) && LedgerSoFar(s, job, p) && ToldSoFar(s, job, p)
  }

  lemma StoppedStays(job: Job, results: seq<Item>, more: seq<Item>, i: nat)
    requires i <= |results| <= |more| && more[..|results|] == results
    ensures Stopped(job, more, i) <==> Stopped(job, results, i)
  {
    assert forall j :: 0 <= j < i ==> more[j] == results[j];
  }

  lemma KnownStays(s: Service, job: Job, results: seq<Item>, more: seq<Item>, i: nat)
    requires i <= |results| <= |more| <= |job.ids| && i < |job.ids| && more[..|results|] == results
    ensures Known(s, job, more, i) <==> Known(s, job, results, i)
  {
    assert forall j :: 0 <= j < i ==> more[j] == results[j];
  }

  lemma ItemAdded(job: Job, p: Progress)
    requires |p.results| < |job.ids|
    ensures var n, q := |p.results|, RunItem(job, |p.results|, p);
            && |q.results| == n + 1 && q.results[..n] == p.results
            && q.aborted == (p.aborted || (job.atomic && q.results[n].status.Failed?))
            && q.ledger == p.ledger
                           + if job.idempotent && q.results[n].status.Success? then {(job.op, job.ids[n])} else {}
  {
  }

  lemma AbortedNext(job: Job, p: Progress)
    requires |p.results| < |job.ids| && AbortedSoFar(job, p)
    ensures AbortedSoFar(job, RunItem(job, |p.results|, p))
  {
    hide RunItem;
    ItemAdded(job, p);
    var n, q := |p.results|, RunItem(job, |p.results|, p);
    StoppedStays(job, p.results, q.results, n);
    assert Stopped(job, q.results, n + 1)
           <==> Stopped(job, q.results, n) || (job.atomic && q.results[n].status.Failed?);
  }

  lemma LedgerNext(s: Service, job: Job, p: Progress)
    requires |p.results| < |job.ids| && LedgerSoFar(s, job, p)
    ensures |RunItem(job, |p.results|, p).results| <= |job.ids| && LedgerSoFar(s, job, RunItem(job, |p.results|, p))
  {
    hide RunItem;
    ItemAdded(job, p);
    var n, q := |p.results|, RunItem(job, |p.results|, p);
    assert forall j :: 0 <= j < n ==> q.results[j] == p.results[j];
  }

  lemma ToldNext(s: Service, job: Job, p: Progress)
    requires |p.results| < |job.ids| && RunSoFar(s, job, p)
    ensures |RunItem(job, |p.results|, p).results| <= |job.ids| && ToldSoFar(s, job, RunItem(job, |p.results|, p))
  {
    var n, q := |p.results|, RunItem(job, |p.results|, p);
    ItemAdded(job, p);
    assert Known(s, job, p.results, n) <==> job.idempotent && (job.op, job.ids[n]) in p.ledger;
    assert q.results[n] == Told(s, job, p.results, n);
    hide RunItem, Stopped, Known, LedgerSoFar, AbortedSoFar;
    forall i | 0 <= i <= n ensures q.results[i] == Told(s, job, q.results, i) {
      StoppedStays(job, p.results, q.results, i);
      KnownStays(s, job, p.results, q.results, i);
      assert i < n ==> q.results[i] == q.results[..n][i];
    }
  }

  lemma RunOneMore(s: Service, job: Job, p: Progress)
    requires |p.results| < |job.ids| && RunSoFar(s, job, p)
    ensures RunSoFar(s, job, RunItem(job, |p.results|, p))
  {
    hide RunItem, AbortedSoFar, LedgerSoFar, ToldSoFar;
    AbortedNext(job, p);
    LedgerNext(s, job, p);
    ToldNext(s, job, p);
  }

  lemma {:induction false} RunItemsTell(s: Service, job: Job, n: nat)
    requires n <= |job.ids|
    ensures |RunItems(s, job, n).results| == n && RunSoFar(s, job, RunItems(s, job, n))
  {
    hide RunSoFar, RunItem;
    RunLength(s, job, n);
    if n == 0 {
      NothingRun(s, job);
    } else {
      RunItemsTell(s, job, n - 1);
      RunOneMore(s, job, RunItems(s, job, n - 1));
    }
  }

  lemma NothingRun(s: Service, job: Job)
    ensures RunSoFar(s, job, Start(s))
  {
  }

  lemma {:induction false} DiscardTells(op: Op, p: Progress, n: nat)
    requires n <= |p.results|
    ensures var q := Discard(op, p, n);
            forall i :: 0 <= i < |p.results| ==>
              q.results[i] == if i < n && p.results[i].status.Success?
                  then p.results[i].(status := Skipped, note := TakenBack)
                              else p.results[i]
  {
    if n > 0 { DiscardTells(op, p, n - 1); }
  }

  /** What becomes of each item of a run: skipped behind an atomic failure, skipped when
      applied before, else applied with the executor's answer; and where an atomic run
      failed, its successes taken back. */
  lemma RunTells(s: Service, job: Job, c: Config) returns (results: seq<Item>)
    requires 0 < |job.ids| <= c.maxItems
    ensures |results| == |job.ids| && forall i :: 0 <= i < |results| ==> results[i] == Told(s, job, results, i)
    ensures var after := Run(s, job, c).current.value.results;
            |after| == |results| &&
            forall i :: 0 <= i < |results| ==>
              after[i] == if Stopped(job, results, |results|) && results[i].status.Success?
                          then results[i].(status := Skipped, note := TakenBack) else results[i]
  {
    hide RunItems, Discard, Told, Count;
    var p := RunItems(s, job, |job.ids|);
    results := p.results;
    RunItemsTell(s, job, |job.ids|);
    DiscardTells(job.op, p, |results|);
    RunItemsAccounted(s, job, |job.ids|);
    CountPositive(results, Failed);
  }

  lemma {:induction false} UndoItemsTell(s: Service, b: Batch, undo: nat -> bool, n: nat)
    requires n <= |b.results|
    ensures var u := UndoItems(s, b, undo, n);
            && (forall i :: 0 <= i < |b.results| ==>
                  var item := b.results[i];
                  u.results[i] == if i >= n || !item.status.Success? then item
                                  else if undo(i) then item.(status := Skipped, note := Reverted)
                                  else item.(status := Failed))
            && forall key :: key in u.ledger <==>
                 key in s.ledger
                 && forall i :: 0 <= i < n && b.results[i].status.Success? && undo(i) ==> key != (b.op, b.results[i].id)
  {
    hide UndoItem;
    if n > 0 {
      UndoItemsTell(s, b, undo, n - 1);
      UndoItemTells(b.op, n - 1, undo(n - 1), UndoItems(s, b, undo, n - 1));
    }
  }

  lemma UndoItemTells(op: Op, k: nat, ok: bool, u: Undo)
    requires k < |u.results|
    ensures var item, v := u.results[k], UndoItem(op, k, ok, u);
            && v.results == u.results[k := if !item.status.Success? then item
                                           else if ok then item.(status := Skipped, note := Reverted)
                                           else item.(status := Failed)]
            && v.ledger == u.ledger - if item.status.Success? && ok then {(op, item.id)} else {}
  {
  }

  /** What a rollback makes of each item, and which keys it takes off the ledger. */
  lemma RollbackTells(s: Service, undo: nat -> bool, c: Config)
    requires s.current.Some? && !s.current.value.rolledBack && s.current.value.state != RolledBack
    requires s.current.value.successes != 0 && c.allowRollback
    ensures var b, t := s.current.value, Rollback(s, undo, c);
            && |t.current.value.results| == |b.results|
            && (forall i :: 0 <= i < |b.results| ==>
                  var item := b.results[i];
                  t.current.value.results[i] == if !item.status.Success? then item
                                                else if undo(i) then item.(status := Skipped, note := Reverted)
                                                else item.(status := Failed))
            && forall key :: key in t.ledger <==>
                 key in s.ledger
                 && forall i :: 0 <= i < |b.results| && b.results[i].status.Success? && undo(i) ==>
                   key != (b.op, b.results[i].id)
  {
    hide UndoItems;
    UndoItemsTell(s, s.current.value, undo, |s.current.value.results|);
  }

  ghost predicate UndoInvariant(b: Batch, u: Undo, n: nat) {
    && |u.results| == |b.results| && InOrder(u.results)
    && Count(u.results, Success) == b.successes - u.reverted - u.failed
    && Count(u.results, Failed) == b.failures + u.failed
    && Count(u.results, Skipped) == b.skips + u.reverted
    && (forall i :: 0 <= i < |b.results| ==>
          if i < n then !u.results[i].status.Success? else u.results[i] == b.results[i])
  }

  lemma {:induction false} UndoItemsAccounted(s: Service, b: Batch, undo: nat -> bool, n: nat)
    requires n <= |b.results| && Accounted(b)
    ensures UndoInvariant(b, UndoItems(s, b, undo, n), n)
  {
    hide Count;
    if n > 0 {
      UndoItemsAccounted(s, b, undo, n - 1);
      var v := UndoItems(s, b, undo, n - 1);
      TallyUpdate(v.results, n - 1, UndoItems(s, b, undo, n).results[n - 1]);
    }
  }

  /** A rollback keeps the accounts exactly when every item is reverted; each item
      that is not is counted twice, as a success and as a failure. Only then can
      the batch still be rolled back. */
  lemma {:induction false} RollbackAccounting(s: Service, undo: nat -> bool, c: Config)
    requires CanRollback(s, c) && Accounted(s.current.value)
    ensures var b := Rollback(s, undo, c).current.value;
            var failed := UndoItems(s, s.current.value, undo, s.current.value.total).failed;
            && |b.results| == b.total && InOrder(b.results)
            && b.failures == Count(b.results, Failed) && b.skips == Count(b.results, Skipped)
            && Count(b.results, Success) == 0 && b.successes == failed
            && b.successes + b.failures + b.skips == b.total + failed
            && (Accounted(b) <==> failed == 0)
            && (CanRollback(Rollback(s, undo, c), c) <==> failed > 0)
            && (b.state == RolledBack <==> failed == 0)
  {
    var before := s.current.value;
    UndoItemsAccounted(s, before, undo, before.total);
    var u := UndoItems(s, before, undo, before.total);
    CountPositive(u.results, Success);
    CountsCover(u.results);
  }

  /** After a rollback that could not revert everything, a second one reverts
      nothing and still reports a clean reversal. */
  lemma {:induction false} SecondRollbackClaimsReversal(s: Service, undo: nat -> bool, again: nat -> bool, c: Config)
    requires CanRollback(s, c) && Accounted(s.current.value)
    requires UndoItems(s, s.current.value, undo, s.current.value.total).failed > 0
    ensures var t := Rollback(s, undo, c);
            var u := Rollback(t, again, c);
            u.current.value.state == RolledBack && u.ledger == t.ledger && u.trace == t.trace
  {
    RollbackAccounting(s, undo, c);
    var t := Rollback(s, undo, c);
    var b := t.current.value;
    CountPositive(b.results, Success);
    NothingToUndo(t, b, again, |b.results|);
  }

  lemma {:induction false} NothingToUndo(s: Service, b: Batch, undo: nat -> bool, n: nat)
    requires n <= |b.results| && forall i :: 0 <= i < |b.results| ==> !b.results[i].status.Success?
    ensures UndoItems(s, b, undo, n) == Undo(s.ledger, b.results, 0, 0, s.trace)
  {
    if n > 0 { NothingToUndo(s, b, undo, n - 1); }
  }

  // ------------------------------------------------------------- the ledger

  /** Whether the writes of an atomic run wait for its end, so that an abort takes
      them back, or take effect as they are made. */
  datatype Writes = Staged | Immediate

  /** The keys in force after a trace, or None if some key was applied twice
      without being undone in between, or undone without being in force. */
  function Replay(trace: seq<Event>, writes: Writes): Option<set<Key>> {
    if trace == [] then Some({})
    else
      var before, last := Replay(trace[..|trace| - 1], writes), trace[|trace| - 1];
      if before.None? then None
      else if last.Applied? then if last.key in before.value then None else Some(before.value + {last.key})
      else if last.Discarded? && writes.Immediate? then before
      else if last.key in before.value then Some(before.value - {last.key}) else None
  }

  lemma {:induction false} ReplaySnoc(trace: seq<Event>, e: Event, ledger: set<Key>)
    requires Replay(trace, Staged) == Some(ledger)
    requires if e.Applied? then e.key !in ledger else e.key in ledger
    ensures Replay(trace + [e], Staged) == Some(if e.Applied? then ledger + {e.key} else ledger - {e.key})
  {
    assert (trace + [e])[..|trace|] == trace;
  }

  ghost predicate DistinctItems(results: seq<Item>) {
    forall i, j :: 0 <= i < j < |results| ==> results[i].id != results[j].id
  }

  /** Each item has its own id, and successes are in the ledger. */
  ghost predicate Settled(op: Op, results: seq<Item>, ledger: set<Key>) {
    && DistinctItems(results)
    && forall i :: 0 <= i < |results| && results[i].status.Success? ==> (op, results[i].id) in ledger
  }

  ghost predicate LedgerInvariant(s: Service) {
    && Replay(s.trace, Staged) == Some(s.ledger)
    && (s.current.Some? ==> Settled(s.current.value.op, s.current.value.results, s.ledger))
  }

  /** A batch that names each subscription once, under an idempotent configuration,
      run by an executor that does not rewrite ids. */
  ghost predicate WellBehaved(job: Job) {
    && job.idempotent
    && (forall i, j :: 0 <= i < j < |job.ids| ==> job.ids[i] != job.ids[j])
    && (forall i :: 0 <= i < |job.ids| ==> ResultId(job, i) == job.ids[i])
  }

  ghost predicate RunSettles(job: Job, p: Progress) {
    && Replay(p.trace, Staged) == Some(p.ledger)
    && |p.results| <= |job.ids|
    && (forall i :: 0 <= i < |p.results| ==> p.results[i].id == job.ids[i])
    && Settled(job.op, p.results, p.ledger)
  }

  lemma {:induction false} RunItemsSettle(s: Service, job: Job, n: nat)
    requires n <= |job.ids| && WellBehaved(job) && Replay(s.trace, Staged) == Some(s.ledger)
    ensures |RunItems(s, job, n).results| == n && RunSettles(job, RunItems(s, job, n))
  {
    hide RunSettles, WellBehaved, RunItem, Replay;
    if n == 0 {
      StartSettles(s, job);
    } else {
      RunItemsSettle(s, job, n - 1);
      RunItemSettles(job, n - 1, RunItems(s, job, n - 1));
    }
  }

  lemma StartSettles(s: Service, job: Job)
    requires Replay(s.trace, Staged) == Some(s.ledger)
    ensures RunSettles(job, Start(s))
  {
  }

  lemma RunItemSettles(job: Job, i: nat, p: Progress)
    requires i < |job.ids| && |p.results| == i && WellBehaved(job) && RunSettles(job, p)
    ensures |RunItem(job, i, p).results| == i + 1 && RunSettles(job, RunItem(job, i, p))
  {
    hide Replay;
    var q := RunItem(job, i, p);
    assert ResultId(job, i) == job.ids[i];
    var key := (job.op, job.ids[i]);
    if q.trace != p.trace {
      ReplaySnoc(p.trace, Applied(key), p.ledger);
    }
  }

  lemma {:induction false} DiscardSettles(op: Op, p: Progress, n: nat)
    requires n <= |p.results| && Replay(p.trace, Staged) == Some(p.ledger) && Settled(op, p.results, p.ledger)
    ensures var q := Discard(op, p, n); Replay(q.trace, Staged) == Some(q.ledger) && Settled(op, q.results, q.ledger)
  {
    hide Replay, Settled, DiscardItem;
    if n > 0 {
      DiscardSettles(op, p, n - 1);
      DiscardItemSettles(op, n - 1, Discard(op, p, n - 1));
    }
  }

  lemma DiscardItemSettles(op: Op, k: nat, p: Progress)
    requires k < |p.results| && Replay(p.trace, Staged) == Some(p.ledger) && Settled(op, p.results, p.ledger)
    ensures var q := DiscardItem(op, k, p);
            Replay(q.trace, Staged) == Some(q.ledger) && Settled(op, q.results, q.ledger)
  {
    hide Replay;
    if p.results[k].status.Success? {
      ReplaySnoc(p.trace, Discarded((op, p.results[k].id)), p.ledger);
    }
  }

  lemma RunSettled(s: Service, job: Job, c: Config)
    requires LedgerInvariant(s) && WellBehaved(job)
    ensures LedgerInvariant(Run(s, job, c))
  {
    hide Replay;
    var n := |job.ids|;
    RunItemsSettle(s, job, n);
    DiscardSettles(job.op, RunItems(s, job, n), n);
  }

  /** An item that a retry is to apply. */
  predicate Retries(b: Batch, retry: nat -> bool, c: Config, k: nat)
    requires k < |b.results|
  {
    b.results[k].status.Failed? && b.results[k].retryCount < c.maxRetries && retry(k)
  }

  /** The ledger part-way through a retry: later items have not been touched. */
  ghost predicate RetrySettles(b: Batch, ledger: set<Key>, b': Batch, s': Service, n: nat) {
    && b'.op == b.op && |b'.results| == |b.results|
    && Replay(s'.trace, Staged) == Some(s'.ledger) && Settled(b.op, b'.results, s'.ledger)
    && (forall i :: 0 <= i < |b.results| ==> b'.results[i].id == b.results[i].id)
    && forall i :: n <= i < |b.results| ==>
         b'.results[i] == b.results[i] && ((b.op, b.results[i].id) in s'.ledger <==> (b.op, b.results[i].id) in ledger)
  }

  /** No item that a retry is to apply is still in force. */
  ghost predicate NoneInForce(b: Batch, retry: nat -> bool, c: Config, ledger: set<Key>) {
    forall k :: 0 <= k < |b.results| && Retries(b, retry, c, k) ==> (b.op, b.results[k].id) !in ledger
  }

  lemma {:induction false} RetryItemsSettle(b: Batch, retry: nat -> bool, c: Config, s: Service, n: nat)
    requires n <= |b.results| && c.idempotent && Replay(s.trace, Staged) == Some(s.ledger)
        && Settled(b.op, b.results, s.ledger)
    requires NoneInForce(b, retry, c, s.ledger)
    ensures var (b', s') := RetryItems(b, retry, c, s, n); RetrySettles(b, s.ledger, b', s', n)
  {
    hide Settled, RetryItem, NoneInForce, Replay;
    if n > 0 {
      hide RetrySettles;
      RetryItemsSettle(b, retry, c, s, n - 1);
      var (b', s') := RetryItems(b, retry, c, s, n - 1);
      RetryItemSettles(b, retry, c, s.ledger, b', s', n - 1);
    }
  }

  lemma RetryItemSettles(b: Batch, retry: nat -> bool, c: Config, ledger: set<Key>, b': Batch, s': Service, k: nat)
    requires k < |b.results| && c.idempotent && Settled(b.op, b.results, ledger) && RetrySettles(b, ledger, b', s', k)
    requires NoneInForce(b, retry, c, ledger)
    ensures var (b'', s'') := RetryItem(b', k, retry(k), c, s'); RetrySettles(b, ledger, b'', s'', k + 1)
  {
    hide Replay;
    if RetryItem(b', k, retry(k), c, s').1.trace != s'.trace {
      ReplaySnoc(s'.trace, Applied((b.op, b.results[k].id)), s'.ledger);
    }
  }

  lemma {:induction false} UndoItemsSettle(s: Service, b: Batch, undo: nat -> bool, n: nat)
    requires n <= |b.results| && Replay(s.trace, Staged) == Some(s.ledger) && Settled(b.op, b.results, s.ledger)
    ensures var u := UndoItems(s, b, undo, n);
            Replay(u.trace, Staged) == Some(u.ledger) && Settled(b.op, u.results, u.ledger)
  {
    hide Replay, Settled, UndoItem;
    if n > 0 {
      UndoItemsSettle(s, b, undo, n - 1);
      UndoItemSettles(b.op, n - 1, undo(n - 1), UndoItems(s, b, undo, n - 1));
    }
  }

  lemma UndoItemSettles(op: Op, k: nat, ok: bool, u: Undo)
    requires k < |u.results| && Replay(u.trace, Staged) == Some(u.ledger) && Settled(op, u.results, u.ledger)
    ensures var v := UndoItem(op, k, ok, u);
            Replay(v.trace, Staged) == Some(v.ledger) && Settled(op, v.results, v.ledger)
  {
    hide Replay;
    if u.results[k].status.Success? {
      ReplaySnoc(u.trace, Undone((op, u.results[k].id)), u.ledger);
    }
  }

  datatype Action = DoRun(job: Job) | DoRetry(retry: nat -> bool) | DoRollback(undo: nat -> bool)

  function Act(s: Service, a: Action, configs: Op -> Config): Service {
    match a
    case DoRun(job) => Run(s, job, configs(job.op))
    case DoRetry(retry) => if s.current.None? then s else Retry(s, retry, configs(s.current.value.op))
    case DoRollback(undo) => if s.current.None? then s else Rollback(s, undo, configs(s.current.value.op))
  }

  /** The uses of the service for which it promises exactly-once effects: any
      rollback, a well-behaved run, and a retry of no item that a rollback left in
      force. */
  ghost predicate Proper(s: Service, a: Action, configs: Op -> Config) {
    match a
    case DoRun(job) => WellBehaved(job)
    case DoRetry(retry) =>
      s.current.Some? ==>
        var b := s.current.value;
        && configs(b.op).idempotent
        && NoneInForce(b, retry, configs(b.op), s.ledger)
    case DoRollback(_) => true
  }

  function ActAll(s: Service, actions: seq<Action>, configs: Op -> Config): Service {
    if actions == [] then s
    else Act(ActAll(s, actions[..|actions| - 1], configs), actions[|actions| - 1], configs)
  }

  ghost predicate AllProper(s: Service, actions: seq<Action>, configs: Op -> Config) {
    actions == [] ||
    var before := actions[..|actions| - 1];
    AllProper(s, before, configs) && Proper(ActAll(s, before, configs), actions[|actions| - 1], configs)
  }

  lemma ActKeepsLedger(s: Service, a: Action, configs: Op -> Config)
    requires LedgerInvariant(s) && Proper(s, a, configs)
    ensures LedgerInvariant(Act(s, a, configs))
  {
    hide Replay;
    match a
    case DoRun(job) => RunSettled(s, job, configs(job.op));
    case DoRetry(retry) =>
      if s.current.Some? {
        var b := s.current.value;
        RetryItemsSettle(b, retry, configs(b.op), s, |b.results|);
      }
    case DoRollback(undo) =>
      if s.current.Some? {
        UndoItemsSettle(s, s.current.value, undo, |s.current.value.results|);
      }
  }

  const NEW_SERVICE := Service({}, None, [])

  /** Over any sequence of proper runs, retries and rollbacks of a new service whose
      atomic executors stage their writes, no operation takes effect twice on a
      subscription unless it was undone in between, and the ledger holds exactly
      what is in force. */
  lemma {:induction false} NeverAppliedTwice(actions: seq<Action>, configs: Op -> Config)
    requires AllProper(NEW_SERVICE, actions, configs)
    ensures LedgerInvariant(ActAll(NEW_SERVICE, actions, configs))
  {
    if actions != [] {
      NeverAppliedTwice(actions[..|actions| - 1], configs);
      ActKeepsLedger(ActAll(NEW_SERVICE, actions[..|actions| - 1], configs), actions[|actions| - 1], configs);
    }
  }

  // --------------------------------------- idempotent operations among others

  function Guarded(configs: Op -> Config): Event -> bool {
    (e: Event) => configs(e.key.0).idempotent
  }

  ghost function GuardedKeys(ledger: set<Key>, configs: Op -> Config): set<Key> {
    set k | k in ledger && configs(k.0).idempotent
  }

  /** The service as far as it concerns the operations configured as idempotent. */
  ghost function Seen(s: Service, configs: Op -> Config): Service {
    Service(GuardedKeys(s.ledger, configs),
            if s.current.Some? && configs(s.current.value.op).idempotent then s.current else None,
            Filter(s.trace, Guarded(configs)))
  }

  ghost function SeenRun(p: Progress, configs: Op -> Config): Progress {
    p.(ledger := GuardedKeys(p.ledger, configs), trace := Filter(p.trace, Guarded(configs)))
  }

  ghost function SeenUndo(u: Undo, configs: Op -> Config): Undo {
    u.(ledger := GuardedKeys(u.ledger, configs), trace := Filter(u.trace, Guarded(configs)))
  }

  /** Neither ledger nor trace shows anything of what an operation that is not guarded
      does; of one that is, they show what it does to the rest of what they show. */
  ghost predicate Unseen(ledger: set<Key>, trace: seq<Event>, ledger': set<Key>, trace': seq<Event>,
                         configs: Op -> Config) {
    && GuardedKeys(ledger', configs) == GuardedKeys(ledger, configs)
    && Filter(trace', Guarded(configs)) == Filter(trace, Guarded(configs))
  }

  lemma {:induction false} EventSeen(e: Event, ledger: set<Key>, trace: seq<Event>, configs: Op -> Config)
    ensures var guarded := configs(e.key.0).idempotent;
            && Filter(trace + [e], Guarded(configs)) == Filter(trace, Guarded(configs)) + (if guarded then [e] else [])
            && GuardedKeys(ledger + {e.key}, configs) == GuardedKeys(ledger, configs)
              + (if guarded then {e.key} else {})
            && GuardedKeys(ledger - {e.key}, configs) == GuardedKeys(ledger, configs) - {e.key}
            && (guarded ==> (e.key in GuardedKeys(ledger, configs) <==> e.key in ledger))
            && (!guarded ==> e.key !in GuardedKeys(ledger, configs))
  {
    KeySeen(e.key, ledger, configs);
    hide GuardedKeys, Filter;
    FilterSnoc(trace, e, Guarded(configs));
  }

  lemma KeySeen(key: Key, ledger: set<Key>, configs: Op -> Config)
    ensures var guarded, seen := configs(key.0).idempotent, GuardedKeys(ledger, configs);
            && GuardedKeys(ledger + {key}, configs) == seen + (if guarded then {key} else {})
            && GuardedKeys(ledger - {key}, configs) == seen - {key}
            && (key in seen <==> guarded && key in ledger)
  {
    var seen := GuardedKeys(ledger, configs);
    forall k ensures k in seen <==> k in ledger && configs(k.0).idempotent {
    }
    forall k ensures k in GuardedKeys(ledger + {key}, configs) <==>
        (k in ledger || k == key) && configs(k.0).idempotent {
    }
    forall k ensures k in GuardedKeys(ledger - {key}, configs) <==> k in ledger && k != key && configs(k.0).idempotent {
    }
  }

  lemma RunItemSeen(job: Job, i: nat, p: Progress, configs: Op -> Config)
    requires i < |job.ids| && job.idempotent == configs(job.op).idempotent
    ensures var q := RunItem(job, i, p);
            if job.idempotent then SeenRun(q, configs) == RunItem(job, i, SeenRun(p, configs))
            else Unseen(p.ledger, p.trace, q.ledger, q.trace, configs)
  {
    hide GuardedKeys, Filter, Guarded;
    EventSeen(Applied((job.op, job.ids[i])), p.ledger, p.trace, configs);
  }

  lemma {:induction false} RunItemsSeen(s: Service, job: Job, n: nat, configs: Op -> Config)
    requires n <= |job.ids| && job.idempotent == configs(job.op).idempotent
    ensures var p := RunItems(s, job, n);
            if job.idempotent then SeenRun(p, configs) == RunItems(Seen(s, configs), job, n)
            else Unseen(s.ledger, s.trace, p.ledger, p.trace, configs)
  {
    hide RunItem, GuardedKeys, Filter, Guarded;
    if n > 0 {
      RunItemsSeen(s, job, n - 1, configs);
      RunItemSeen(job, n - 1, RunItems(s, job, n - 1), configs);
    }
  }

  lemma DiscardItemSeen(op: Op, k: nat, p: Progress, configs: Op -> Config)
    requires k < |p.results|
    ensures var q := DiscardItem(op, k, p);
            if configs(op).idempotent then SeenRun(q, configs) == DiscardItem(op, k, SeenRun(p, configs))
            else Unseen(p.ledger, p.trace, q.ledger, q.trace, configs)
  {
    hide GuardedKeys, Filter, Guarded;
    EventSeen(Discarded((op, p.results[k].id)), p.ledger, p.trace, configs);
  }

  lemma {:induction false} DiscardSeen(op: Op, p: Progress, n: nat, configs: Op -> Config)
    requires n <= |p.results|
    ensures var q := Discard(op, p, n);
            if configs(op).idempotent then SeenRun(q, configs) == Discard(op, SeenRun(p, configs), n)
            else Unseen(p.ledger, p.trace, q.ledger, q.trace, configs)
  {
    hide DiscardItem, GuardedKeys, Filter, Guarded;
    if n > 0 {
      DiscardSeen(op, p, n - 1, configs);
      DiscardItemSeen(op, n - 1, Discard(op, p, n - 1), configs);
    }
  }

  lemma RetryItemSeen(b: Batch, k: nat, ok: bool, s: Service, configs: Op -> Config)
    requires k < |b.results|
    ensures var c := configs(b.op);
            var (b', s') := RetryItem(b, k, ok, c, s);
            var (b'', s'') := RetryItem(b, k, ok, c, Seen(s, configs));
            if c.idempotent then b' == b'' && Seen(s', configs) == s''
            else Unseen(s.ledger, s.trace, s'.ledger, s'.trace, configs)
  {
    hide GuardedKeys, Filter, Guarded;
    EventSeen(Applied((b.op, b.results[k].id)), s.ledger, s.trace, configs);
  }

  lemma {:induction false} RetryItemsSeen(b: Batch, retry: nat -> bool, s: Service, n: nat, configs: Op -> Config)
    requires n <= |b.results|
    ensures var c := configs(b.op);
            var (b', s') := RetryItems(b, retry, c, s, n);
            var (b'', s'') := RetryItems(b, retry, c, Seen(s, configs), n);
            && b'.op == b.op
            && if c.idempotent then b' == b'' && Seen(s', configs) == s''
               else Unseen(s.ledger, s.trace, s'.ledger, s'.trace, configs)
  {
    hide GuardedKeys, Filter, Guarded;
    if n > 0 {
      RetryItemsSeen(b, retry, s, n - 1, configs);
      var (b', s') := RetryItems(b, retry, configs(b.op), s, n - 1);
      RetryItemSeen(b', n - 1, retry(n - 1), s', configs);
    }
  }

  lemma UndoItemSeen(op: Op, k: nat, ok: bool, u: Undo, configs: Op -> Config)
    requires k < |u.results|
    ensures var v := UndoItem(op, k, ok, u);
            if configs(op).idempotent then SeenUndo(v, configs) == UndoItem(op, k, ok, SeenUndo(u, configs))
            else Unseen(u.ledger, u.trace, v.ledger, v.trace, configs)
  {
    hide GuardedKeys, Filter, Guarded;
    EventSeen(Undone((op, u.results[k].id)), u.ledger, u.trace, configs);
  }

  lemma {:induction false} UndoItemsSeen(s: Service, b: Batch, undo: nat -> bool, n: nat, configs: Op -> Config)
    requires n <= |b.results|
    ensures var u := UndoItems(s, b, undo, n);
            if configs(b.op).idempotent then SeenUndo(u, configs) == UndoItems(Seen(s, configs), b, undo, n)
            else Unseen(s.ledger, s.trace, u.ledger, u.trace, configs)
  {
    hide UndoItem, GuardedKeys, Filter, Guarded;
    if n > 0 {
      UndoItemsSeen(s, b, undo, n - 1, configs);
      UndoItemSeen(b.op, n - 1, undo(n - 1), UndoItems(s, b, undo, n - 1), configs);
    }
  }

  /** The uses of a service of which only some operations are idempotent: of those
      that are, only the proper ones; of the others, any. */
  ghost predicate Admissible(s: Service, a: Action, configs: Op -> Config) {
    match a
    case DoRun(job) => job.idempotent == configs(job.op).idempotent && (job.idempotent ==> Proper(s, a, configs))
    case DoRetry(_) => s.current.Some? && configs(s.current.value.op).idempotent ==> Proper(s, a, configs)
    case DoRollback(_) => true
  }

  ghost predicate AllAdmissible(s: Service, actions: seq<Action>, configs: Op -> Config) {
    actions == [] ||
    var before := actions[..|actions| - 1];
    AllAdmissible(s, before, configs) && Admissible(ActAll(s, before, configs), actions[|actions| - 1], configs)
  }

  lemma RunSeen(s: Service, job: Job, configs: Op -> Config)
    requires job.idempotent == configs(job.op).idempotent
    ensures var c, t := configs(job.op), Run(s, job, configs(job.op));
            if job.idempotent then Seen(t, configs) == Run(Seen(s, configs), job, c)
            else Seen(t, configs) == Seen(s, configs).(current := None)
  {
    hide RunItems, Discard, GuardedKeys, Filter, Guarded;
    var n := |job.ids|;
    RunLength(s, job, n);
    RunLength(Seen(s, configs), job, n);
    RunItemsSeen(s, job, n, configs);
    DiscardSeen(job.op, RunItems(s, job, n), n, configs);
  }

  lemma RetrySeen(s: Service, retry: nat -> bool, configs: Op -> Config)
    requires s.current.Some?
    ensures var c := configs(s.current.value.op);
            var t := Retry(s, retry, c);
            if c.idempotent then Seen(t, configs) == Retry(Seen(s, configs), retry, c)
            else Seen(t, configs) == Seen(s, configs)
  {
    hide RetryItems, GuardedKeys, Filter, Guarded, HasFailure;
    RetryItemsSeen(s.current.value, retry, s, |s.current.value.results|, configs);
  }

  lemma RollbackSeen(s: Service, undo: nat -> bool, configs: Op -> Config)
    requires s.current.Some?
    ensures var c := configs(s.current.value.op);
            var t := Rollback(s, undo, c);
            if c.idempotent then Seen(t, configs) == Rollback(Seen(s, configs), undo, c)
            else Seen(t, configs) == Seen(s, configs)
  {
    hide UndoItems, GuardedKeys, Filter, Guarded;
    UndoItemsSeen(s, s.current.value, undo, |s.current.value.results|, configs);
  }

  /** To the idempotent operations, the others make no difference. */
  lemma ActSeen(s: Service, a: Action, configs: Op -> Config)
    requires LedgerInvariant(Seen(s, configs)) && Admissible(s, a, configs)
    ensures LedgerInvariant(Seen(Act(s, a, configs), configs))
  {
    hide Run, Retry, Rollback, Replay, Filter, Guarded;
    match a
    case DoRun(job) =>
      RunSeen(s, job, configs);
      if job.idempotent { ActKeepsLedger(Seen(s, configs), a, configs); }
    case DoRetry(retry) =>
      if s.current.Some? {
        RetrySeen(s, retry, configs);
        if configs(s.current.value.op).idempotent { ActKeepsLedger(Seen(s, configs), a, configs); }
      }
    case DoRollback(undo) =>
      if s.current.Some? {
        RollbackSeen(s, undo, configs);
        if configs(s.current.value.op).idempotent { ActKeepsLedger(Seen(s, configs), a, configs); }
      }
  }

  /** Whatever batches of other operations run in between: on the keys of the idempotent
      ones nothing takes effect twice, and the ledger holds what of them is in force; or,
      with writes that take effect at once, something does exactly when one of their keys
      is applied after an abort discarded it. */
  lemma {:induction false} GuardedNeverAppliedTwice(actions: seq<Action>, configs: Op -> Config)
    requires AllAdmissible(NEW_SERVICE, actions, configs)
    ensures LedgerInvariant(Seen(ActAll(NEW_SERVICE, actions, configs), configs))
    ensures var trace := Seen(ActAll(NEW_SERVICE, actions, configs), configs).trace;
            Replay(trace, Immediate).None? <==> Reapplies(trace)
  {
    hide Replay, Reapplies, Proper, Act;
    if actions == [] {
      assert Seen(NEW_SERVICE, configs) == NEW_SERVICE;
      NeverAppliedTwice([], configs);
    } else {
      GuardedNeverAppliedTwice(actions[..|actions| - 1], configs);
      ActSeen(ActAll(NEW_SERVICE, actions[..|actions| - 1], configs), actions[|actions| - 1], configs);
    }
    var _ := ImmediateExactly(Seen(ActAll(NEW_SERVICE, actions, configs), configs).trace);
  }

  // ------------------------------------------- writes that take effect at once

  /** A key that an abort discarded is applied later on. */
  ghost predicate Reapplies(trace: seq<Event>) {
    exists i, j :: 0 <= i < j < |trace| && trace[j].Applied? && trace[i] == Discarded(trace[j].key)
  }

  lemma ReappliesSnoc(trace: seq<Event>, e: Event)
    ensures Reapplies(trace + [e]) <==> Reapplies(trace) || (e.Applied? && Discarded(e.key) in trace)
  {
    var longer := trace + [e];
    if Reapplies(trace) {
      var i, j :| 0 <= i < j < |trace| && trace[j].Applied? && trace[i] == Discarded(trace[j].key);
      assert longer[i] == Discarded(longer[j].key);
    }
    if e.Applied? && Discarded(e.key) in trace {
      var i :| 0 <= i < |trace| && trace[i] == Discarded(e.key);
      assert longer[i] == Discarded(longer[|trace|].key);
    }
  }

  ghost predicate Forgotten(trace: seq<Event>, keys: set<Key>) {
    forall key :: key in keys <==> Discarded(key) in trace
  }

  lemma {:induction false} ImmediateStep(before: seq<Event>, e: Event, forgotten: set<Key>)
    requires Replay(before, Staged).Some? && Replay(before + [e], Staged).Some? && Forgotten(before, forgotten)
    requires forgotten !! Replay(before, Staged).value
    requires Replay(before, Immediate) == Some(Replay(before, Staged).value + forgotten)
    ensures var after := Replay(before + [e], Immediate);
            if e.Applied? && Discarded(e.key) in before then after.None?
            else var more := if e.Discarded? then forgotten + {e.key} else forgotten;
                 var ledger := Replay(before + [e], Staged).value;
                 more !! ledger && after == Some(ledger + more)
  {
    assert (before + [e])[..|before|] == before;
    var ledger := Replay(before, Staged).value;
    if e.Applied? {
      assert ledger + forgotten + {e.key} == ledger + {e.key} + forgotten;
    } else {
      assert e.key in ledger;
      assert ledger + forgotten - {e.key} == ledger - {e.key} + forgotten;
      assert ledger + forgotten == ledger - {e.key} + (forgotten + {e.key});
    }
  }

  /** Where the service does its part, an operation whose writes take effect at once
      is applied twice exactly when a key that an abort discarded is applied again;
      until then what is in force is the ledger and the discarded keys. */
  lemma {:induction false} ImmediateExactly(trace: seq<Event>) returns (forgotten: set<Key>)
    requires Replay(trace, Staged).Some?
    ensures Replay(trace, Immediate).None? <==> Reapplies(trace)
    ensures Forgotten(trace, forgotten)
    ensures !Reapplies(trace) ==>
              forgotten !! Replay(trace, Staged).value
              && Replay(trace, Immediate) == Some(Replay(trace, Staged).value + forgotten)
  {
    if trace == [] {
      forgotten := {};
      assert Replay(trace, Staged).value + forgotten == {};
    } else {
      var before, e := trace[..|trace| - 1], trace[|trace| - 1];
      assert trace == before + [e];
      forgotten := ImmediateExactly(before);
      ReappliesSnoc(before, e);
      if !Reapplies(before) { ImmediateStep(before, e, forgotten); }
      if e.Discarded? { forgotten := forgotten + {e.key}; }
    }
  }

  /** So over any sequence of proper actions of a new service. */
  lemma {:induction false} AppliedTwiceExactly(actions: seq<Action>, configs: Op -> Config)
    requires AllProper(NEW_SERVICE, actions, configs)
    ensures var trace := ActAll(NEW_SERVICE, actions, configs).trace;
            Replay(trace, Immediate).None? <==> Reapplies(trace)
  {
    NeverAppliedTwice(actions, configs);
    var _ := ImmediateExactly(ActAll(NEW_SERVICE, actions, configs).trace);
  }

  /** An item that a run applies: reached, not in the ledger, and a success. */
  predicate Takes(s: Service, job: Job, i: nat)
    requires i < |job.ids|
  {
    var p := RunItems(s, job, i);
    !p.aborted && !(job.idempotent && (job.op, job.ids[i]) in p.ledger) && job.apply(i).success
  }

  lemma {:induction false} RunItemsReapply(s: Service, job: Job, n: nat)
    requires n <= |job.ids|
    ensures var trace := RunItems(s, job, n).trace;
            && (forall key :: Discarded(key) in trace <==> Discarded(key) in s.trace)
            && (Reapplies(trace) <==>
                || Reapplies(s.trace)
                || exists i :: 0 <= i < n && Takes(s, job, i) && Discarded((job.op, job.ids[i])) in s.trace)
  {
    hide Reapplies;
    if n > 0 {
      RunItemsReapply(s, job, n - 1);
      var p := RunItems(s, job, n - 1);
      if Takes(s, job, n - 1) {
        ReappliesSnoc(p.trace, Applied((job.op, job.ids[n - 1])));
      }
    }
  }

  lemma {:induction false} DiscardReapplies(op: Op, p: Progress, n: nat)
    requires n <= |p.results|
    ensures Reapplies(Discard(op, p, n).trace) <==> Reapplies(p.trace)
  {
    hide Reapplies;
    if n > 0 {
      DiscardReapplies(op, p, n - 1);
      var q := Discard(op, p, n - 1);
      if q.results[n - 1].status.Success? { ReappliesSnoc(q.trace, Discarded((op, q.results[n - 1].id))); }
    }
  }

  /** A run applies a discarded key again exactly when it reaches an item with one
      and its executor succeeds on it. */
  lemma RunReappliesExactly(s: Service, job: Job, c: Config)
    requires Accepted(|job.ids|, c)
    ensures Reapplies(Run(s, job, c).trace) <==>
            || Reapplies(s.trace)
            || exists i :: 0 <= i < |job.ids| && Takes(s, job, i) && Discarded((job.op, job.ids[i])) in s.trace
  {
    hide Reapplies;
    RunLength(s, job, |job.ids|);
    RunItemsReapply(s, job, |job.ids|);
    DiscardReapplies(job.op, RunItems(s, job, |job.ids|), |job.ids|);
  }

  lemma {:induction false} RetryItemsReapply(b: Batch, retry: nat -> bool, c: Config, s: Service, n: nat)
    requires n <= |b.results|
    ensures var (b', s') := RetryItems(b, retry, c, s, n);
            && b'.op == b.op && (forall i :: n <= i < |b.results| ==> b'.results[i] == b.results[i])
            && (forall key :: Discarded(key) in s'.trace <==> Discarded(key) in s.trace)
            && (Reapplies(s'.trace) <==>
                || Reapplies(s.trace)
                || exists k :: 0 <= k < n && Retries(b, retry, c, k) && Discarded((b.op, b.results[k].id)) in s.trace)
  {
    hide Reapplies;
    if n > 0 {
      RetryItemsReapply(b, retry, c, s, n - 1);
      var (b', s') := RetryItems(b, retry, c, s, n - 1);
      if Retries(b, retry, c, n - 1) { ReappliesSnoc(s'.trace, Applied((b.op, b.results[n - 1].id))); }
    }
  }

  /** A retry does exactly when it applies an item with such a key. */
  lemma RetryReappliesExactly(s: Service, retry: nat -> bool, c: Config)
    requires s.current.Some?
    ensures var b := s.current.value;
            Reapplies(Retry(s, retry, c).trace) <==>
            || Reapplies(s.trace)
            || exists k ::
                 0 <= k < |b.results| && Retries(b, retry, c, k) && Discarded((b.op, b.results[k].id)) in s.trace
  {
    hide Reapplies;
    RetryItemsReapply(s.current.value, retry, c, s, |s.current.value.results|);
  }

  /** Half-way through a rollback: what could not be undone is marked failed, and
      is still in force. */
  ghost predicate LeftInForce(b: Batch, undo: nat -> bool, u: Undo, n: nat) {
    && |u.results| == |b.results|
    && Replay(u.trace, Staged) == Some(u.ledger)
    && forall i :: 0 <= i < |b.results| ==>
         && u.results[i].id == b.results[i].id && u.results[i].retryCount == b.results[i].retryCount
         && (i >= n ==> u.results[i] == b.results[i])
         && (b.results[i].status.Success? && (i >= n || !undo(i)) ==> (b.op, b.results[i].id) in u.ledger)
         && (b.results[i].status.Success? && i < n && !undo(i) ==> u.results[i].status.Failed?)
  }

  lemma {:induction false} UndoLeavesInForce(s: Service, b: Batch, undo: nat -> bool, n: nat)
    requires n <= |b.results| && Replay(s.trace, Staged) == Some(s.ledger) && Settled(b.op, b.results, s.ledger)
    ensures LeftInForce(b, undo, UndoItems(s, b, undo, n), n)
  {
    hide Replay, UndoItem, LeftInForce;
    if n == 0 {
      NothingUndone(s, b, undo);
    } else {
      UndoLeavesInForce(s, b, undo, n - 1);
      UndoItemLeavesInForce(b, undo, UndoItems(s, b, undo, n - 1), n - 1);
    }
  }

  lemma {:induction false} NothingUndone(s: Service, b: Batch, undo: nat -> bool)
    requires Replay(s.trace, Staged) == Some(s.ledger) && Settled(b.op, b.results, s.ledger)
    ensures LeftInForce(b, undo, UndoItems(s, b, undo, 0), 0)
  {
    hide Replay;
  }

  lemma UndoItemLeavesInForce(b: Batch, undo: nat -> bool, u: Undo, k: nat)
    requires k < |b.results| && DistinctItems(b.results) && LeftInForce(b, undo, u, k)
    ensures LeftInForce(b, undo, UndoItem(b.op, k, undo(k), u), k + 1)
  {
    hide Replay;
    if u.results[k].status.Success? && undo(k) {
      ReplaySnoc(u.trace, Undone((b.op, u.results[k].id)), u.ledger);
    }
  }

  /** Applying a key that is in force makes the trace fail for good. */
  lemma {:induction false} AppliedAgain(trace: seq<Event>, e: Event, ledger: set<Key>, key: Key)
    requires Replay(trace, Staged).None? || (Replay(trace, Staged) == Some(ledger) && key in ledger && e.Applied?)
    ensures Replay(trace, Staged).None? ==> Replay(trace + [e], Staged).None?
    ensures Replay(trace + [e], Staged).None? || (e.key != key && Replay(trace + [e], Staged) == Some(ledger + {e.key}))
  {
    assert (trace + [e])[..|trace|] == trace;
  }

  lemma {:induction false} RetryAppliesTwice(b: Batch, retry: nat -> bool, c: Config, s: Service, n: nat, k: nat)
    requires n <= |b.results| && k < |b.results| && c.idempotent && Replay(s.trace, Staged) == Some(s.ledger)
    requires (b.op, b.results[k].id) in s.ledger && Retries(b, retry, c, k)
    ensures var (b', s') := RetryItems(b, retry, c, s, n);
            && b'.op == b.op && |b'.results| == |b.results|
            && (forall i :: n <= i < |b.results| ==> b'.results[i] == b.results[i])
            && (|| Replay(s'.trace, Staged).None?
                || (k >= n && Replay(s'.trace, Staged) == Some(s'.ledger) && (b.op, b.results[k].id) in s'.ledger))
  {
    hide Replay;
    if n > 0 {
      RetryAppliesTwice(b, retry, c, s, n - 1, k);
      var (r, t) := RetryItems(b, retry, c, s, n - 1);
      if Retries(b, retry, c, n - 1) {
        var e := Applied((r.op, r.results[n - 1].id));
        assert RetryItem(r, n - 1, retry(n - 1), c, t).1.trace == t.trace + [e];
        AppliedAgain(t.trace, e, t.ledger, (b.op, b.results[k].id));
      }
    }
  }

  /** A retry keeps the promise exactly when no item it applies is still in force. */
  lemma RetryKeepsExactly(s: Service, retry: nat -> bool, c: Config)
    requires LedgerInvariant(s) && s.current.Some? && c.idempotent
    ensures var b := s.current.value;
            Replay(Retry(s, retry, c).trace, Staged).Some? <==> NoneInForce(b, retry, c, s.ledger)
  {
    hide Replay;
    var b := s.current.value;
    if k :| 0 <= k < |b.results| && Retries(b, retry, c, k) && (b.op, b.results[k].id) in s.ledger {
      RetryAppliesTwice(b, retry, c, s, |b.results|, k);
    } else {
      RetryItemsSettle(b, retry, c, s, |b.results|);
    }
  }

  /** After a rollback that could not revert some item, a retry of that item makes
      the operation take effect twice: the rollback marked it failed. */
  lemma RetryAfterFailedRollback(s: Service, undo: nat -> bool, retry: nat -> bool, c: Config, k: nat)
    requires LedgerInvariant(s) && CanRollback(s, c) && c.idempotent
    requires var items := s.current.value.results;
             k < |items| && items[k].status.Success? && items[k].retryCount < c.maxRetries && !undo(k) && retry(k)
    ensures Replay(Retry(Rollback(s, undo, c), retry, c).trace, Staged) == None
  {
    var b := s.current.value;
    UndoLeavesInForce(s, b, undo, |b.results|);
    var t := Rollback(s, undo, c);
    var b' := t.current.value;
    assert Retries(b', retry, c, k);
    RetryAppliesTwice(b', retry, c, t, |b'.results|, k);
  }

  ghost predicate PairJob(job: Job, a: string, b: string) {
    job.ids == [a, b] && a != b && job.idempotent && job.atomic && job.apply(0).success
        && job.apply(0).id == job.apply(1).id == ""
  }

  /** Two items, neither in the ledger, of which the second is tried too. */
  lemma {:induction false} PairRuns(s: Service, job: Job, a: string, b: string)
    requires PairJob(job, a, b) && (job.op, a) !in s.ledger && (job.op, b) !in s.ledger
    ensures var p, ka, kb := RunItems(s, job, 2), (job.op, a), (job.op, b);
            if job.apply(1).success
            then && p.failures == 0 && p.ledger == s.ledger + {ka} + {kb}
                && p.trace == s.trace + [Applied(ka), Applied(kb)]
                 && p.results == [Item(0, a, Success, 0, Plain), Item(1, b, Success, 0, Plain)]
            else && p.failures == 1 && p.ledger == s.ledger + {ka} && p.trace == s.trace + [Applied(ka)]
                 && p.results == [Item(0, a, Success, 0, Plain), Item(1, b, Failed, 0, Plain)]
  {
    var none, one := RunItems(s, job, 0), RunItems(s, job, 1);
    assert one == RunItem(job, 0, none) && RunItems(s, job, 2) == RunItem(job, 1, one);
    assert one.results == [Item(0, a, Success, 0, Plain)] && one.trace == s.trace + [Applied((job.op, a))];
  }

  lemma PairLeaves(s: Service, job: Job, a: string, b: string, c: Config)
    requires PairJob(job, a, b) && (job.op, a) !in s.ledger && (job.op, b) !in s.ledger && c.maxItems >= 2
    ensures var t, ka, kb := Run(s, job, c), (job.op, a), (job.op, b);
            if job.apply(1).success then t.trace == s.trace + [Applied(ka), Applied(kb)]
            else t.trace == s.trace + [Applied(ka), Discarded(ka)] && t.ledger == s.ledger
  {
    PairRuns(s, job, a, b);
    var p := RunItems(s, job, 2);
    if !job.apply(1).success {
      var q := Discard(job.op, p, 1);
      assert Discard(job.op, p, 0) == p && q == DiscardItem(job.op, 0, p);
      assert q.results[1] == p.results[1] && Discard(job.op, p, 2) == DiscardItem(job.op, 1, q) == q;
      assert s.ledger + {(job.op, a)} - {(job.op, a)} == s.ledger;
    }
  }

  lemma {:induction false} TwoActions(s: Service, x: Action, y: Action, configs: Op -> Config)
    ensures ActAll(s, [x, y], configs) == Act(Act(s, x, configs), y, configs)
    ensures AllProper(s, [x, y], configs) <==> Proper(s, x, configs) && Proper(Act(s, x, configs), y, configs)
  {
    var both, one, none := [x, y], [x], [];
    assert both[..1] == one && one[..0] == none;
    assert ActAll(s, none, configs) == s && AllProper(s, none, configs);
    assert ActAll(s, one, configs) == Act(s, x, configs) && (AllProper(s, one, configs) <==> Proper(s, x, configs));
  }

  /** A charge of "a" and "b" that goes through, or fails on "b". */
  function PairCharge(ok: bool): Job {
    Job(Charge, ["a", "b"], (i: nat) => Outcome(ok || i == 0, ""), true, true)
  }

  lemma PairChargeFits(ok: bool)
    ensures var job := PairCharge(ok);
            PairJob(job, "a", "b") && WellBehaved(job) && job.op == Charge && job.apply(1).success == ok
  {
  }

  /** The failing input, under the configuration that charges ship with: a first run
      charges "a" and aborts on "b"; the same batch is run again and goes through. No
      handler undid the first charge of "a". */
  lemma AbortedChargeIsRepeated(c: Config)
    requires c.idempotent && c.maxItems >= 2
    ensures var actions := [DoRun(PairCharge(false)), DoRun(PairCharge(true))];
            var a, b := (Charge, "a"), (Charge, "b");
            && AllProper(NEW_SERVICE, actions, _ => c)
            && ActAll(NEW_SERVICE, actions, _ => c).trace == [Applied(a), Discarded(a), Applied(a), Applied(b)]
            && Replay(ActAll(NEW_SERVICE, actions, _ => c).trace, Immediate) == None
  {
    hide Run, Replay, ActAll, AllProper, PairCharge, PairJob, WellBehaved;
    var first, second := PairCharge(false), PairCharge(true);
    var a, b := (Charge, "a"), (Charge, "b");
    var configs: Op -> Config := _ => c;
    PairChargeFits(false);
    PairChargeFits(true);
    PairLeaves(NEW_SERVICE, first, "a", "b", c);
    PairLeaves(Run(NEW_SERVICE, first, c), second, "a", "b", c);
    TwoActions(NEW_SERVICE, DoRun(first), DoRun(second), configs);
    var trace := Run(Run(NEW_SERVICE, first, c), second, c).trace;
    assert trace == [Applied(a), Discarded(a), Applied(a), Applied(b)];
    assert Reapplies(trace) by { assert trace[1] == Discarded(trace[2].key); }
    AppliedTwiceExactly([DoRun(first), DoRun(second)], configs);
  }

  // --------------------------------------------- the ledger after an abort

  /** The keys a run put in the ledger, and the keys under which it filed them. */
  ghost function Taken(job: Job, results: seq<Item>): set<Key>
    requires |results| <= |job.ids|
  {
    set i | 0 <= i < |results| && results[i].status.Success? :: (job.op, job.ids[i])
  }

  ghost function Filed(op: Op, results: seq<Item>, n: nat): set<Key>
    requires n <= |results|
  {
    set i | 0 <= i < n && results[i].status.Success? :: (op, results[i].id)
  }

  lemma {:induction false} RunItemsTake(s: Service, job: Job, n: nat)
    requires n <= |job.ids| && job.idempotent
    ensures var p := RunItems(s, job, n);
            |p.results| == n && p.ledger == s.ledger + Taken(job, p.results) && Taken(job, p.results) !! s.ledger
  {
    if n > 0 {
      hide RunItem, Taken;
      RunItemsTake(s, job, n - 1);
      RunItemTakes(job, n - 1, RunItems(s, job, n - 1));
    }
  }

  lemma RunItemTakes(job: Job, i: nat, p: Progress)
    requires i < |job.ids| && |p.results| == i && job.idempotent
    ensures var q := RunItem(job, i, p);
            && |q.results| == i + 1
            && var key := (job.op, job.ids[i]);
               if q.ledger == p.ledger then Taken(job, q.results) == Taken(job, p.results)
               else && Taken(job, q.results) == Taken(job, p.results) + {key}
                    && key !in p.ledger && q.ledger == p.ledger + {key}
  {
    var q := RunItem(job, i, p);
    assert q.results == p.results + [q.results[i]];
    assert Taken(job, q.results) == Taken(job, p.results) +
             if q.results[i].status.Success? then {(job.op, job.ids[i])} else {};
  }

  lemma {:induction false} DiscardTakesBack(op: Op, p: Progress, n: nat)
    requires n <= |p.results|
    ensures var q := Discard(op, p, n);
            && q.ledger == p.ledger - Filed(op, p.results, n)
            && forall i :: n <= i < |p.results| ==> q.results[i] == p.results[i]
  {
    if n > 0 {
      DiscardTakesBack(op, p, n - 1);
      assert Filed(op, p.results, n) == Filed(op, p.results, n - 1) +
               if p.results[n - 1].status.Success? then {(op, p.results[n - 1].id)} else {};
    }
  }

  /** A failed atomic run leaves the ledger as it was exactly when every key it took
      is one it filed a success under, and none of those was in the ledger before;
      an executor that never rewrites ids always meets this. */
  lemma {:induction false} AtomicFailureRestoresLedger(s: Service, job: Job, c: Config)
    requires Accepted(|job.ids|, c) && job.idempotent && job.atomic
    requires RunItems(s, job, |job.ids|).failures > 0
    ensures var items := RunItems(s, job, |job.ids|).results;
            && |items| == |job.ids|
            && (Run(s, job, c).ledger == s.ledger
                <==> Taken(job, items) <= Filed(job.op, items, |items|) && Filed(job.op, items, |items|) !! s.ledger)
            && ((forall i :: 0 <= i < |job.ids| ==> ResultId(job, i) == job.ids[i]) ==>
                Run(s, job, c).ledger == s.ledger)
  {
    var n := |job.ids|;
    RunItemsTake(s, job, n);
    var p := RunItems(s, job, n);
    DiscardTakesBack(job.op, p, n);
    var taken, filed := Taken(job, p.results), Filed(job.op, p.results, n);
    if taken <= filed && filed !! s.ledger {
      assert s.ledger + taken - filed == s.ledger;
    }
    if Run(s, job, c).ledger == s.ledger {
      assert forall k :: k in s.ledger ==> k in s.ledger + taken - filed;
      assert forall k :: k in taken ==> k !in s.ledger;
    }
    if forall i :: 0 <= i < n ==> ResultId(job, i) == job.ids[i] {
      RunItemsNamed(s, job, n);
      assert taken == filed;
    }
  }

  lemma {:induction false} RunItemsNamed(s: Service, job: Job, n: nat)
    requires n <= |job.ids| && forall i :: 0 <= i < |job.ids| ==> ResultId(job, i) == job.ids[i]
    ensures var p := RunItems(s, job, n);
            |p.results| == n && forall i :: 0 <= i < n ==> p.results[i].id == job.ids[i]
  {
    if n > 0 {
      hide RunItem, ResultId;
      RunItemsNamed(s, job, n - 1);
      var before := RunItems(s, job, n - 1);
      RunItemNamed(job, n - 1, before);
      assert forall i :: 0 <= i < n - 1 ==> RunItems(s, job, n).results[..n - 1][i] == RunItems(s, job, n).results[i];
    }
  }

  lemma RunItemNamed(job: Job, i: nat, p: Progress)
    requires i < |job.ids|
    ensures var q, n := RunItem(job, i, p), |p.results|;
            && |q.results| == n + 1 && q.results[..n] == p.results
            && (q.results[n].id == job.ids[i] || q.results[n].id == ResultId(job, i))
  {
  }
}
