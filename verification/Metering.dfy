/** Usage metering: increments are logged, totalled, grouped into the buckets of a
    period and billed from the buckets that are still kept. */
module Metering {
  import opened Sequences

  const DEFAULT_PERIOD_SECS: nat := 86400
  const MAX_BUCKETS := 90

  datatype Usage = Usage(sub: string, metric: string, value: int, timestamp: nat)

  datatype Bucket = Bucket(start: nat, units: int)

  datatype Meter = Meter(metric: string, total: int, lastTimestamp: nat, periodSecs: nat, includedUnits: int,
                         unitPrice: int,
                         alertThreshold: int, alertFired: bool, buckets: seq<Bucket>)

  datatype Alert = Alert(sub: string, metric: string, threshold: int, currentUsage: int, timestamp: nat)

  datatype ChargeLine = ChargeLine(metric: string, units: int, billableUnits: int, unitPrice: int, amount: int)

  function BucketStart(now: nat, period: nat): (start: nat)
    ensures start <= now
  {
    if period == 0 then now else now - now % period
  }

  function BillableUnits(used: int, included: int): int {
    if used - included > 0 then used - included else 0
  }

  function NewMeter(metric: string, period: nat): Meter {
    Meter(metric, 0, 0, period, 0, 0, 0, false, [])
  }

  function LastBuckets(buckets: seq<Bucket>): (kept: seq<Bucket>)
    ensures |kept| <= MAX_BUCKETS
  {
    LastN(buckets, MAX_BUCKETS)
  }

  function LastN(buckets: seq<Bucket>, n: nat): (kept: seq<Bucket>)
    ensures |kept| == if |buckets| > n then n else |buckets|
  {
    if |buckets| > n then buckets[|buckets| - n..] else buckets
  }

  function AddTo(buckets: seq<Bucket>, start: nat, value: int): seq<Bucket> {
    if buckets != [] && buckets[|buckets| - 1].start == start
    then buckets[..|buckets| - 1] + [Bucket(start, buckets[|buckets| - 1].units + value)]
    else buckets + [Bucket(start, value)]
  }

  /** All buckets a log of usage amounts to, none ever dropped. */
  function Grouped(log: seq<Usage>, period: nat): (buckets: seq<Bucket>)
    ensures log != [] ==> buckets != []
  {
    if log == [] then []
    else
      var u := log[|log| - 1];
      AddTo(Grouped(log[..|log| - 1], period), BucketStart(u.timestamp, period), u.value)
  }

  /** Dropping before adding comes to the same as dropping after. */
  lemma KeepsLast(buckets: seq<Bucket>, start: nat, value: int)
    ensures LastBuckets(AddTo(LastBuckets(buckets), start, value)) == LastBuckets(AddTo(buckets, start, value))
  {
    hide AddTo;
    var n := |buckets|;
    if n > MAX_BUCKETS {
      var k := n - MAX_BUCKETS;
      AddedBehind(buckets, k, start, value);
      var added, longer := AddTo(buckets[k..], start, value), AddTo(buckets, start, value);
      if |added| > MAX_BUCKETS { assert longer[k..][1..] == longer[k + 1..]; }
    }
  }

  lemma AddedBehind(buckets: seq<Bucket>, k: nat, start: nat, value: int)
    requires k < |buckets|
    ensures AddTo(buckets[k..], start, value) == AddTo(buckets, start, value)[k..]
    ensures |buckets| <= |AddTo(buckets, start, value)| <= |buckets| + 1
  {
    var last := |buckets| - 1;
    assert buckets[k..][last - k] == buckets[last];
    assert buckets[k..][..last - k] == buckets[..last][k..];
  }

  function SumBuckets(buckets: seq<Bucket>, keep: nat -> bool): int {
    if buckets == [] then 0
    else
      var b := buckets[|buckets| - 1];
      SumBuckets(buckets[..|buckets| - 1], keep) + if keep(b.start) then b.units else 0
  }

  function SumUsage(log: seq<Usage>, keep: nat -> bool): int {
    if log == [] then 0
    else
      var u := log[|log| - 1];
      SumUsage(log[..|log| - 1], keep) + if keep(u.timestamp) then u.value else 0
  }

  predicate Always(t: nat) {
    true
  }

  function Between(start: int, end: int): nat -> bool {
    (t: nat) => start <= t <= end
  }

  function StartsKept(period: nat, keep: nat -> bool): nat -> bool {
    (t: nat) => keep(BucketStart(t, period))
  }

  /** However the clock runs, the buckets hold the log's usage by the start of the
      period it falls in. */
  lemma {:induction false} GroupedSums(log: seq<Usage>, period: nat, keep: nat -> bool)
    ensures SumBuckets(Grouped(log, period), keep) == SumUsage(log, StartsKept(period, keep))
  {
    hide BucketStart;
    if log != [] {
      var before, u := log[..|log| - 1], log[|log| - 1];
      GroupedSums(before, period, keep);
      var buckets, start := Grouped(before, period), BucketStart(u.timestamp, period);
      var after := AddTo(buckets, start, u.value);
      if buckets != [] && buckets[|buckets| - 1].start == start {
        assert after[..|after| - 1] == buckets[..|buckets| - 1];
      } else {
        assert after[..|after| - 1] == buckets;
      }
    }
  }

  ghost predicate InTimeOrder(log: seq<Usage>) {
    forall i, j :: 0 <= i < j < |log| ==> log[i].timestamp <= log[j].timestamp
  }

  ghost predicate Increasing(buckets: seq<Bucket>) {
    forall i, j :: 0 <= i < j < |buckets| ==> buckets[i].start < buckets[j].start
  }

  function Times(k: int, period: nat): int {
    k * period
  }

  ghost predicate Multiple(x: int, period: nat) {
    exists k :: x == Times(k, period)
  }

  lemma TimesMonotone(a: int, b: int, period: nat)
    ensures a <= b ==> Times(a, period) <= Times(b, period)
  {
    if a <= b { assert (b - a) * period >= 0; }
  }

  /** A period's start is the last multiple of the period so far, and without a period the
      instant itself. */
  lemma StartOfPeriod(t: nat, period: nat)
    ensures if period == 0 then BucketStart(t, period) == t
            else BucketStart(t, period) == t / period * period <= t < (t / period + 1) * period
  {
    if period > 0 { assert t == (t / period) * period + t % period; }
  }

  lemma StartsMonotone(s: nat, t: nat, period: nat)
    requires s <= t
    ensures BucketStart(s, period) <= BucketStart(t, period)
    ensures period > 0 ==> Multiple(BucketStart(s, period), period)
  {
    if period > 0 {
      StartOfPeriod(s, period);
      StartOfPeriod(t, period);
      var a, b := s / period, t / period;
      hide BucketStart, Times;
      TimesMonotone(a, b, period);
      TimesMonotone(b + 1, a, period);
    }
  }

  lemma NoneIncreasing()
    ensures Increasing([])
  {
  }

  lemma AddToIncreasing(buckets: seq<Bucket>, start: nat, value: int, period: nat)
    requires Increasing(buckets) && (buckets != [] ==> buckets[|buckets| - 1].start <= start)
    ensures var after := AddTo(buckets, start, value);
            && Increasing(after) && after != [] && after[|after| - 1].start == start
            && (Multiple(start, period) && (forall i :: 0 <= i < |buckets| ==> Multiple(buckets[i].start, period))
                ==> forall i :: 0 <= i < |after| ==> Multiple(after[i].start, period))
  {
    hide Multiple;
  }

  /** With a clock that does not go back the buckets are those of ever later periods. */
  lemma {:induction false} GroupedIncreasing(log: seq<Usage>, period: nat)
    requires InTimeOrder(log)
    ensures var buckets := Grouped(log, period);
            && Increasing(buckets)
            && (log != [] ==> buckets[|buckets| - 1].start == BucketStart(log[|log| - 1].timestamp, period))
            && (period > 0 ==> forall i :: 0 <= i < |buckets| ==> Multiple(buckets[i].start, period))
  {
    hide BucketStart, Multiple, AddTo, Increasing;
    if log == [] {
      NoneIncreasing();
    } else {
      var before, u := log[..|log| - 1], log[|log| - 1];
      GroupedIncreasing(before, period);
      StartsMonotone(u.timestamp, u.timestamp, period);
      if before != [] { StartsMonotone(before[|before| - 1].timestamp, u.timestamp, period); }
      AddToIncreasing(Grouped(before, period), BucketStart(u.timestamp, period), u.value, period);
    }
  }

  function From(keep: nat -> bool, from: nat): nat -> bool {
    (t: nat) => keep(t) && t >= from
  }

  lemma {:induction false} SumFrom(buckets: seq<Bucket>, k: nat, keep: nat -> bool)
    requires Increasing(buckets) && k < |buckets|
    ensures SumBuckets(buckets[k..], keep) == SumBuckets(buckets, From(keep, buckets[k].start))
  {
    var last := |buckets| - 1;
    assert buckets[k..][..last - k] == buckets[..last][k..];
    if k < last {
      SumFrom(buckets[..last], k, keep);
      assert buckets[k].start < buckets[last].start;
    } else {
      SumNone(buckets[..last], From(keep, buckets[k].start));
    }
  }

  lemma {:induction false} SumNone(buckets: seq<Bucket>, keep: nat -> bool)
    requires forall i :: 0 <= i < |buckets| ==> !keep(buckets[i].start)
    ensures SumBuckets(buckets, keep) == 0
  {
    if buckets != [] { SumNone(buckets[..|buckets| - 1], keep); }
  }

  /** What is billed of a range: the usage whose period starts in the range, as far
      back as buckets are kept. */
  lemma {:induction false} BilledExactly(log: seq<Usage>, period: nat, start: int, end: int)
    requires InTimeOrder(log) && log != []
    ensures var kept := LastBuckets(Grouped(log, period));
            kept != [] && SumBuckets(kept, Between(start, end))
                          == SumUsage(log, StartsKept(period, From(Between(start, end), kept[0].start)))
  {
    var buckets := Grouped(log, period);
    var k := if |buckets| > MAX_BUCKETS then |buckets| - MAX_BUCKETS else 0;
    GroupedIncreasing(log, period);
    SumFrom(buckets, k, Between(start, end));
    assert LastBuckets(buckets) == buckets[k..];
    GroupedSums(log, period, From(Between(start, end), buckets[k].start));
  }

  lemma {:induction false} SameSums(log: seq<Usage>, keep: nat -> bool, other: nat -> bool)
    requires forall i :: 0 <= i < |log| ==> (keep(log[i].timestamp) <==> other(log[i].timestamp))
    ensures SumUsage(log, keep) == SumUsage(log, other)
  {
    if log != [] { SameSums(log[..|log| - 1], keep, other); }
  }

  lemma StartAgainst(t: nat, bound: int, period: nat)
    requires period > 0 && Multiple(bound, period)
    ensures BucketStart(t, period) >= bound <==> t >= bound
  {
    var b :| bound == Times(b, period);
    StartOfPeriod(t, period);
    var a := t / period;
    hide BucketStart, Times;
    TimesMonotone(b, a, period);
    TimesMonotone(a + 1, b, period);
  }

  /** Over whole periods that is the usage of the range itself, back to the first
      period kept; and nothing has been dropped while there were no more than 90. */
  lemma {:induction false} WholePeriodsBilledExactly(log: seq<Usage>, period: nat, start: int, end: int)
    requires InTimeOrder(log) && log != [] && period > 0 && Multiple(start, period) && Multiple(end + 1, period)
    ensures var kept := LastBuckets(Grouped(log, period));
            && kept != [] && SumBuckets(kept, Between(start, end))
              == SumUsage(log, From(Between(start, end), kept[0].start))
            && (|Grouped(log, period)| <= MAX_BUCKETS ==>
                SumBuckets(kept, Between(start, end)) == SumUsage(log, Between(start, end)))
  {
    hide BucketStart;
    BilledExactly(log, period, start, end);
    GroupedIncreasing(log, period);
    var from := LastBuckets(Grouped(log, period))[0].start;
    hide Multiple, LastBuckets, Increasing, InTimeOrder, Grouped;
    forall t: nat ensures StartsKept(period, From(Between(start, end), from))(t) <==> From(Between(start, end), from)(t)
                  ensures StartsKept(period, Between(start, end))(t) <==> Between(start, end)(t)
    {
      StartAgainst(t, start, period);
      StartAgainst(t, end + 1, period);
      StartAgainst(t, from, period);
    }
    SameSums(log, StartsKept(period, From(Between(start, end), from)), From(Between(start, end), from));
    GroupedSums(log, period, Between(start, end));
    SameSums(log, StartsKept(period, Between(start, end)), Between(start, end));
  }

  // ------------------------------------------------------ a change of period

  ghost predicate Positive(log: seq<Usage>) {
    forall u :: u in log ==> u.value > 0
  }

  /** Whether the latest usage begins a bucket, rather than adding to the last. */
  predicate Opens(log: seq<Usage>, period: nat)
    requires log != []
  {
    |log| == 1 || BucketStart(log[|log| - 2].timestamp, period) != BucketStart(log[|log| - 1].timestamp, period)
  }

  /** Walking back from the latest usage through `n` buckets, two periods put each
      usage in a bucket of the same start, and begin their buckets together. */
  predicate Alike(log: seq<Usage>, p: nat, q: nat, n: nat) {
    n == 0 || log == [] ||
    var last := |log| - 1;
    && BucketStart(log[last].timestamp, p) == BucketStart(log[last].timestamp, q)
    && Opens(log, p) == Opens(log, q)
    && Alike(log[..last], p, q, if Opens(log, p) then n - 1 else n)
  }

  /** Every usage falls in a period of the same start. */
  ghost predicate SameStarts(log: seq<Usage>, p: nat, q: nat) {
    forall i :: 0 <= i < |log| ==> BucketStart(log[i].timestamp, p) == BucketStart(log[i].timestamp, q)
  }

  /** One usage more: a bucket of its own, or so much more in the last one. */
  ghost predicate Extends(before: seq<Bucket>, after: seq<Bucket>, start: nat, value: int, opens: bool) {
    if opens then after == before + [Bucket(start, value)]
    else
      var last := |before| - 1;
      && before != [] && before[last].start == start && before[last].units > 0
      && after == before[..last] + [Bucket(start, before[last].units + value)]
  }

  lemma {:induction false} NothingGrouped(period: nat)
    ensures Grouped([], period) == []
  {
  }

  lemma {:induction false} GroupedExtends(log: seq<Usage>, period: nat)
    requires Positive(log) && log != []
    ensures var last := |log| - 1;
            Extends(Grouped(log[..last], period), Grouped(log, period),
                    BucketStart(log[last].timestamp, period), log[last].value, Opens(log, period))
  {
    hide BucketStart;
    var last := |log| - 1;
    if last == 0 {
      NothingGrouped(period);
    } else {
      var before := log[..last];
      assert before[last - 1] in log && log[last] in log;
      GroupedExtends(before, period);
      assert before[..last - 1] == log[..last - 1];
    }
  }

  lemma LastExtended(before: seq<Bucket>, after: seq<Bucket>, start: nat, value: int, opens: bool, n: nat)
    requires Extends(before, after, start, value, opens) && n > 0
    ensures Extends(LastN(before, if opens then n - 1 else n), LastN(after, n), start, value, opens)
  {
  }

  lemma ExtendedAlike(b: seq<Bucket>, b': seq<Bucket>, c: seq<Bucket>, c': seq<Bucket>, s: nat, t: nat, value: int,
                      o: bool, r: bool)
    requires Extends(b, b', s, value, o) && Extends(c, c', t, value, r)
    ensures b' == c' <==> s == t && o == r && b == c
  {
    assert |b'| > 0 && |c'| > 0;
    var x, y := b'[|b'| - 1], c'[|c'| - 1];
    if b' == c' {
      assert x == y;
      assert b'[..|b'| - 1] == c'[..|c'| - 1];
      if o {
        assert b == b'[..|b'| - 1] && c == c'[..|c'| - 1];
      } else {
        assert b == b'[..|b'| - 1] + [Bucket(s, x.units - value)];
        assert c == c'[..|c'| - 1] + [Bucket(t, y.units - value)];
      }
    }
  }

  /** The last buckets of a log are the same under two periods exactly when those are
      alike over them. */
  lemma {:induction false} LastAlikeExactly(log: seq<Usage>, p: nat, q: nat, n: nat)
    requires Positive(log)
    ensures LastN(Grouped(log, p), n) == LastN(Grouped(log, q), n) <==> Alike(log, p, q, n)
  {
    hide BucketStart, Grouped, Opens, LastN, Extends;
    if n == 0 {
      NoneLast(Grouped(log, p));
      NoneLast(Grouped(log, q));
    } else if log == [] {
      NothingGrouped(p);
      NothingGrouped(q);
    } else {
      var last := |log| - 1;
      var before, s, t := log[..last], BucketStart(log[last].timestamp, p), BucketStart(log[last].timestamp, q);
      GroupedExtends(log, p);
      GroupedExtends(log, q);
      LastExtended(Grouped(before, p), Grouped(log, p), s, log[last].value, Opens(log, p), n);
      LastExtended(Grouped(before, q), Grouped(log, q), t, log[last].value, Opens(log, q), n);
      var m, k := if Opens(log, p) then n - 1 else n, if Opens(log, q) then n - 1 else n;
      ExtendedAlike(LastN(Grouped(before, p), m), LastN(Grouped(log, p), n),
                    LastN(Grouped(before, q), k), LastN(Grouped(log, q), n), s, t, log[last].value, Opens(log, p),
                        Opens(log, q));
      LastAlikeExactly(before, p, q, m);
    }
  }

  lemma NoneLast(buckets: seq<Bucket>)
    ensures LastN(buckets, 0) == []
  {
  }

  /** As long as nothing has been dropped that is the same start for every usage. */
  lemma {:induction false} AlikeWhole(log: seq<Usage>, p: nat, q: nat, n: nat)
    requires Positive(log) && |Grouped(log, p)| <= n
    ensures Alike(log, p, q, n) <==> SameStarts(log, p, q)
  {
    hide BucketStart, Grouped;
    if log != [] {
      var last := |log| - 1;
      GroupedExtends(log, p);
      AlikeWhole(log[..last], p, q, if Opens(log, p) then n - 1 else n);
      assert forall i :: 0 <= i < last ==> log[..last][i] == log[i];
      if SameStarts(log, p, q) && last > 0 { assert log[last - 1] == log[..last][last - 1]; }
    }
  }

  /** A period twice as long puts two days' usage, in two buckets so far, in one. */
  lemma LongerPeriodDiffers(day: Usage, next: Usage)
    requires day.timestamp == 0 && next.timestamp == DEFAULT_PERIOD_SECS && day.value > 0 && next.value > 0
    ensures !SameStarts([day, next], DEFAULT_PERIOD_SECS, 2 * DEFAULT_PERIOD_SECS)
    ensures LastBuckets(Grouped([day, next], DEFAULT_PERIOD_SECS))
            != LastBuckets(Grouped([day, next], 2 * DEFAULT_PERIOD_SECS))
  {
    var log := [day, next];
    assert BucketStart(log[1].timestamp, DEFAULT_PERIOD_SECS) == 86400 != 0
      == BucketStart(log[1].timestamp, 2 * DEFAULT_PERIOD_SECS);
    LastAlikeExactly(log, DEFAULT_PERIOD_SECS, 2 * DEFAULT_PERIOD_SECS, MAX_BUCKETS);
  }

  // ------------------------------------------------------------ the meters

  function Named(metric: string): Meter -> bool {
    (m: Meter) => m.metric == metric
  }

  function FindMeter(ms: seq<Meter>, metric: string): (at: nat)
    ensures at <= |ms|
    ensures at < |ms| ==> ms[at].metric == metric
    ensures forall i :: 0 <= i < at ==> ms[i].metric != metric
  {
    FirstIndex(ms, Named(metric))
  }

  function Lookup(ms: seq<Meter>, metric: string): Option<Meter> {
    var at := FindMeter(ms, metric);
    if at < |ms| then Some(ms[at]) else None
  }

  function Upsert(ms: seq<Meter>, m: Meter): seq<Meter> {
    var at := FindMeter(ms, m.metric);
    if at < |ms| then ms[at := m] else ms + [m]
  }

  type Meters = map<string, seq<Meter>>

  function MetersFor(meters: Meters, sub: string): seq<Meter> {
    if sub in meters then meters[sub] else []
  }

  function StateOf(meters: Meters, sub: string, metric: string): Option<Meter> {
    Lookup(MetersFor(meters, sub), metric)
  }

  function OfMeter(sub: string, metric: string): Usage -> bool {
    (u: Usage) => u.sub == sub && u.metric == metric
  }

  /** The part of the log that concerns one meter. */
  function LogOf(history: seq<Usage>, sub: string, metric: string): seq<Usage> {
    Filter(history, OfMeter(sub, metric))
  }

  /** A meter's total and its alert are what its part of the log says. */
  ghost predicate Counts(m: Option<Meter>, log: seq<Usage>) {
    match m
    case None => log == []
    case Some(m) =>
      && m.total == SumUsage(log, Always)
      && (m.alertFired <==> m.alertThreshold != 0 && m.total >= m.alertThreshold)
  }

  /** So are its buckets, for the period it has now. */
  ghost predicate Fits(m: Option<Meter>, log: seq<Usage>) {
    m.Some? ==> m.value.buckets == LastBuckets(Grouped(log, m.value.periodSecs))
  }

  ghost predicate EachOnce(ms: seq<Meter>) {
    forall i, j :: 0 <= i < j < |ms| ==> ms[i].metric != ms[j].metric
  }

  ghost predicate AllCount(meters: Meters, history: seq<Usage>) {
    && Positive(history)
    && (forall sub :: EachOnce(MetersFor(meters, sub)))
    && forall sub, metric :: Counts(StateOf(meters, sub, metric), LogOf(history, sub, metric))
  }

  lemma {:induction false} Upserted(ms: seq<Meter>, m: Meter, k: string)
    ensures Lookup(Upsert(ms, m), k) == if k == m.metric then Some(m) else Lookup(ms, k)
  {
    hide Lookup;
    LookupHead(ms, k);
    LookupHead(Upsert(ms, m), k);
    UpsertHead(ms, m);
    hide Upsert;
    if ms == [] {
      LookupNone(k);
    } else if ms[0].metric != m.metric {
      Upserted(ms[1..], m, k);
    }
  }

  lemma LookupNone(k: string)
    ensures Lookup([], k) == None
  {
  }

  lemma LookupHead(ms: seq<Meter>, k: string)
    ensures ms != [] ==> Lookup(ms, k) == if ms[0].metric == k then Some(ms[0]) else Lookup(ms[1..], k)
  {
  }

  lemma UpsertHead(ms: seq<Meter>, m: Meter)
    ensures var after := Upsert(ms, m);
            && after != []
            && (ms == [] ==> after[0] == m && after[1..] == [])
            && (ms != [] && ms[0].metric == m.metric ==> after[0] == m && after[1..] == ms[1..])
            && (ms != [] && ms[0].metric != m.metric ==> after[0] == ms[0] && after[1..] == Upsert(ms[1..], m))
  {
  }

  lemma UpsertedOnce(ms: seq<Meter>, m: Meter)
    requires EachOnce(ms)
    ensures EachOnce(Upsert(ms, m))
  {
    assert forall i :: 0 <= i < |ms| ==> Upsert(ms, m)[i].metric == ms[i].metric;
  }

  /** Committing a meter changes that one alone. */
  lemma Committed(meters: Meters, sub: string, m: Meter)
    requires forall s :: EachOnce(MetersFor(meters, s))
    ensures var after := meters[sub := Upsert(MetersFor(meters, sub), m)];
            && (forall s :: EachOnce(MetersFor(after, s)))
            && forall s, k :: StateOf(after, s, k) == if s == sub && k == m.metric then Some(m)
              else StateOf(meters, s, k)
  {
    hide EachOnce, Upsert, Lookup;
    var ms := MetersFor(meters, sub);
    var after := meters[sub := Upsert(ms, m)];
    assert EachOnce(ms);
    UpsertedOnce(ms, m);
    forall s ensures EachOnce(MetersFor(after, s)) {
      assert EachOnce(MetersFor(meters, s));
    }
    forall k ensures StateOf(after, sub, k) == if k == m.metric then Some(m) else StateOf(meters, sub, k) {
      Upserted(ms, m, k);
    }
  }

  lemma CommittedCounts(meters: Meters, history: seq<Usage>, sub: string, m: Meter)
    requires Positive(history) && forall s :: EachOnce(MetersFor(meters, s))
    requires forall s, k :: s != sub || k != m.metric ==> Counts(StateOf(meters, s, k), LogOf(history, s, k))
    requires Counts(Some(m), LogOf(history, sub, m.metric))
    ensures AllCount(meters[sub := Upsert(MetersFor(meters, sub), m)], history)
  {
    hide EachOnce, Counts, StateOf, LogOf, MetersFor, Upsert, Positive;
    Committed(meters, sub, m);
  }

  lemma Logged(history: seq<Usage>, u: Usage)
    ensures forall s, k :: LogOf(history + [u], s, k) == if s == u.sub && k == u.metric then LogOf(history, s, k) + [u]
        else LogOf(history, s, k)
  {
    forall s, k ensures LogOf(history + [u], s, k) == if s == u.sub && k == u.metric then LogOf(history, s, k) + [u]
        else LogOf(history, s, k) {
      FilterSnoc(history, u, OfMeter(s, k));
    }
  }

  lemma CountsMore(m: Meter, log: seq<Usage>, u: Usage, after: Meter)
    requires Counts(Some(m), log) && u.value > 0
    requires after.total == m.total + u.value && after.alertThreshold == m.alertThreshold
    requires after.alertFired == (m.alertFired || (m.alertThreshold != 0 && after.total >= m.alertThreshold))
    ensures Counts(Some(after), log + [u])
  {
    assert (log + [u])[..|log|] == log;
  }

  lemma FitsMore(m: Meter, log: seq<Usage>, u: Usage, after: Meter)
    requires after.buckets == AddToBucket(m, u.timestamp, u.value) && after.periodSecs == m.periodSecs
    ensures Fits(Some(m), log) ==> Fits(Some(after), log + [u])
  {
    hide BucketStart, LastBuckets, AddTo;
    assert (log + [u])[..|log|] == log;
    KeepsLast(Grouped(log, m.periodSecs), BucketStart(u.timestamp, m.periodSecs), u.value);
  }

  class MeteringStore {
    var meters: Meters
    var alerts: seq<Alert>
    var usageHistory: seq<Usage>

    /** Every meter's total and alert agree with the log of raw usage. */
    ghost predicate Valid()
      reads this
    {
      AllCount(meters, usageHistory)
    }

    /** The buckets of one meter do. */
    ghost predicate InStep(sub: string, metric: string)
      reads this
    {
      Fits(StateOf(meters, sub, metric), LogOf(usageHistory, sub, metric))
    }

    constructor ()
      ensures Valid() && meters == map[] && alerts == [] && usageHistory == []
      ensures forall s, k :: InStep(s, k)
    {
      meters, alerts, usageHistory := map[], [], [];
    }

    /** Sets a meter's terms. The buckets of one that is there stay in step with the log
        exactly when its old and its new period are alike over the buckets kept: while
        none has been dropped, when every usage so far falls in a period of the same
        start under both. */
    method RegisterMeter(sub: string, metric: string, unitPrice: int, includedUnits: int, periodSecs: Option<nat>,
                         alertThreshold: Option<int>)
      requires Valid()
      modifies `meters
      ensures Valid()
      ensures var before, now := StateOf(old(meters), sub, metric), StateOf(meters, sub, metric);
              && now.Some? && now.value.unitPrice == unitPrice && now.value.includedUnits == includedUnits
              && now.value.alertThreshold == (if alertThreshold.Some? then alertThreshold.value else 0)
              && now.value.periodSecs == (if periodSecs.Some? then periodSecs.value
                                          else if before.Some? then before.value.periodSecs else DEFAULT_PERIOD_SECS)
              && (before.Some? ==> now.value.total == before.value.total && now.value.buckets == before.value.buckets)
              && (before.None? ==> InStep(sub, metric))
              && (before.None? ==> now.value.total == now.value.lastTimestamp == 0 && now.value.buckets == [])
              && (before.Some? && old(InStep(sub, metric)) ==>
                    var log, p, q := LogOf(usageHistory, sub, metric), before.value.periodSecs, now.value.periodSecs;
                    && (InStep(sub, metric) <==> Alike(log, p, q, MAX_BUCKETS))
                    && (|before.value.buckets| < MAX_BUCKETS ==> (InStep(sub, metric) <==> SameStarts(log, p, q))))
      ensures forall s, k :: s != sub || k != metric ==> StateOf(meters, s, k) == StateOf(old(meters), s, k)
    {
      hide StateOf, LogOf, EachOnce, LastBuckets, Grouped, SumUsage, MetersFor, Upsert, Alike, SameStarts, Positive;
      var map' := MetersFor(meters, sub);
      var state := StateOf(meters, sub, metric);
      StateOfMetric(meters, sub, metric);
      var existing := if state.Some? then state.value
                      else NewMeter(metric, if periodSecs.Some? then periodSecs.value else DEFAULT_PERIOD_SECS);
      var threshold := if alertThreshold.Some? then alertThreshold.value else 0;
      var now := existing.(periodSecs := if periodSecs.Some? then periodSecs.value else existing.periodSecs,
                           includedUnits := includedUnits, unitPrice := unitPrice, alertThreshold := threshold,
                           alertFired := threshold != 0 && existing.total >= threshold);
      NewCounts(metric, now.periodSecs);
      Committed(meters, sub, now);
      assert Counts(state, LogOf(usageHistory, sub, metric));
      CommittedCounts(meters, usageHistory, sub, now);
      LogPositive(usageHistory, sub, metric);
      FitsExactly(LogOf(usageHistory, sub, metric), existing, now);
      meters := meters[sub := Upsert(map', now)];
    }

    /** Logs an increment and adds it to its meter, made with the default terms if it
        is not there; an alert is raised exactly when the threshold is reached first.
        Buckets in step with the log stay so. */
    method RecordUsage(sub: string, metric: string, value: int, now: nat) returns (recorded: bool)
      requires Valid()
      modifies this
      ensures Valid() && (recorded <==> value > 0)
      ensures forall s, k :: old(InStep(s, k)) ==> InStep(s, k)
      ensures usageHistory == if recorded then old(usageHistory) + [Usage(sub, metric, value, now)]
          else old(usageHistory)
      ensures forall s, k :: s != sub || k != metric || !recorded ==>
          StateOf(meters, s, k) == StateOf(old(meters), s, k)
      ensures recorded ==> StateOf(meters, sub, metric).Some?
      ensures recorded ==>
                var before := StateOf(old(meters), sub, metric);
                var m := StateOf(meters, sub, metric).value;
                var was := if before.Some? then before.value else NewMeter(metric, DEFAULT_PERIOD_SECS);
                && m == was.(total := was.total + value, lastTimestamp := now, buckets := AddToBucket(was, now, value),
                             alertFired := m.alertFired)
                && alerts == if m.alertFired && !was.alertFired
                  then old(alerts) + [Alert(sub, metric, m.alertThreshold, m.total, now)]
                             else old(alerts)
      ensures recorded && StateOf(old(meters), sub, metric).None? ==>
                var m := StateOf(meters, sub, metric).value;
                && m.includedUnits == m.unitPrice == m.alertThreshold == 0 && !m.alertFired
                && m.total == value && m.periodSecs == 86400 && m.buckets == [Bucket(now - now % 86400, value)]
      ensures !recorded ==> alerts == old(alerts)
    {
      hide StateOf, LogOf, EachOnce, Grouped, SumUsage, MetersFor, Upsert, AddToBucket, LastBuckets, Positive, Fits;
      if value <= 0 { return false; }
      var map' := MetersFor(meters, sub);
      var found := StateOf(meters, sub, metric);
      StateOfMetric(meters, sub, metric);
      NewCounts(metric, DEFAULT_PERIOD_SECS);
      var existing := if found.Some? then found.value else NewMeter(metric, DEFAULT_PERIOD_SECS);
      var state := existing.(total := existing.total + value, lastTimestamp := now,
                             buckets := AddToBucket(existing, now, value));
      var entry := Usage(sub, metric, value, now);
      usageHistory := usageHistory + [entry];
      if state.alertThreshold != 0 && !state.alertFired && state.total >= state.alertThreshold {
        state := state.(alertFired := true);
        alerts := alerts + [Alert(sub, metric, state.alertThreshold, state.total, now)];
      }
      assert Counts(found, LogOf(old(usageHistory), sub, metric));
      PositiveMore(old(usageHistory), entry);
      Logged(old(usageHistory), entry);
      FirstBucket(metric, now, value);
      CountsMore(existing, LogOf(old(usageHistory), sub, metric), entry, state);
      FitsMore(existing, LogOf(old(usageHistory), sub, metric), entry, state);
      Committed(meters, sub, state);
      CommittedCounts(meters, usageHistory, sub, state);
      meters := meters[sub := Upsert(map', state)];
      return true;
    }

    /** Bills each meter of a subscription for a range, from its buckets. */
    method CalculateUsageCharge(sub: string, start: int, end: int) returns (total: int, lines: seq<ChargeLine>)
      ensures |lines| == |MetersFor(meters, sub)|
      ensures forall i :: 0 <= i < |lines| ==> lines[i] == LineOf(MetersFor(meters, sub)[i], start, end)
      ensures total == SumAmounts(lines)
      ensures Valid() && InTimeOrder(usageHistory) ==>
                forall i :: 0 <= i < |lines| && InStep(sub, lines[i].metric) ==>
                  BillsTheLog(MetersFor(meters, sub)[i], lines[i].units, LogOf(usageHistory, sub, lines[i].metric),
                              start, end)
    {
      hide SumBuckets, BillsTheLog, LogOf, InTimeOrder, AllCount, Fits;
      var ms := MetersFor(meters, sub);
      total, lines := 0, [];
      for i := 0 to |ms|
        invariant |lines| == i && forall k :: 0 <= k < i ==> lines[k] == LineOf(ms[k], start, end)
        invariant total == SumAmounts(lines)
      {
        var state := ms[i];
        var used := SumBuckets(state.buckets, Between(start, end));
        var billable := BillableUnits(used, state.includedUnits);
        var amount := billable * state.unitPrice;
        total := total + amount;
        var line := ChargeLine(state.metric, used, billable, state.unitPrice, amount);
        assert (lines + [line])[..|lines|] == lines;
        lines := lines + [line];
      }
      BillsAll(meters, usageHistory, sub, start, end);
    }
  }

  function AddToBucket(state: Meter, now: nat, value: int): seq<Bucket> {
    LastBuckets(AddTo(state.buckets, BucketStart(now, state.periodSecs), value))
  }

  lemma FirstBucket(metric: string, now: nat, value: int)
    ensures AddToBucket(NewMeter(metric, DEFAULT_PERIOD_SECS), now, value) == [Bucket(now - now % 86400, value)]
  {
  }

  function LineOf(m: Meter, start: int, end: int): ChargeLine {
    var used := SumBuckets(m.buckets, Between(start, end));
    var billable := BillableUnits(used, m.includedUnits);
    ChargeLine(m.metric, used, billable, m.unitPrice, billable * m.unitPrice)
  }

  /** What is billed: the units beyond those included, at the unit price; nothing up to
      them. */
  lemma BillsBeyondIncluded(m: Meter, start: int, end: int)
    ensures var line := LineOf(m, start, end);
            && line.metric == m.metric && line.unitPrice == m.unitPrice
            && line.units == SumBuckets(m.buckets, Between(start, end))
            && line.billableUnits == (if line.units <= m.includedUnits then 0 else line.units - m.includedUnits)
            && line.amount == if line.units <= m.includedUnits then 0 else (line.units - m.includedUnits) * m.unitPrice
  {
  }

  /** A range takes the buckets that start in it, both ends included. */
  lemma {:induction false} BetweenTakes(buckets: seq<Bucket>, b: Bucket, start: int, end: int)
    ensures SumBuckets(buckets + [b], Between(start, end))
            == SumBuckets(buckets, Between(start, end)) + if start <= b.start && b.start <= end then b.units else 0
    ensures SumBuckets([], Between(start, end)) == 0
  {
    assert (buckets + [b])[..|buckets|] == buckets;
  }

  function SumAmounts(lines: seq<ChargeLine>): int {
    if lines == [] then 0 else SumAmounts(lines[..|lines| - 1]) + lines[|lines| - 1].amount
  }

  /** The units billed are the log's usage in the range, for a range of whole periods;
      for any other, that of the periods which start in it. Only what fell out with
      the oldest buckets is not billed. */
  ghost predicate BillsTheLog(m: Meter, units: int, log: seq<Usage>, start: int, end: int) {
    if m.buckets == [] then units == 0 && log == []
    else
      var from := m.buckets[0].start;
      && units == SumUsage(log, StartsKept(m.periodSecs, From(Between(start, end), from)))
      && (m.periodSecs > 0 && Multiple(start, m.periodSecs) && Multiple(end + 1, m.periodSecs)
          ==> units == SumUsage(log, From(Between(start, end), from)))
      && (|m.buckets| < MAX_BUCKETS ==> units == SumUsage(log, StartsKept(m.periodSecs, Between(start, end))))
  }

  lemma {:induction false} FilterInTimeOrder(history: seq<Usage>, keep: Usage -> bool)
    requires InTimeOrder(history)
    ensures InTimeOrder(Filter(history, keep))
    ensures forall u :: u in Filter(history, keep) ==> u in history
  {
    if history != [] {
      var init := history[..|history| - 1];
      FilterInTimeOrder(init, keep);
      assert forall u :: u in init ==> u.timestamp <= history[|history| - 1].timestamp;
      assert forall i :: 0 <= i < |Filter(init, keep)| ==> Filter(init, keep)[i] in init;
    }
  }

  lemma BillsOne(m: Meter, log: seq<Usage>, start: int, end: int)
    requires Fits(Some(m), log) && InTimeOrder(log)
    ensures BillsTheLog(m, SumBuckets(m.buckets, Between(start, end)), log, start, end)
  {
    hide Grouped, SumUsage, Multiple, InTimeOrder;
    if log == [] {
      NothingGrouped(m.periodSecs);
    } else {
      BilledExactly(log, m.periodSecs, start, end);
      GroupedSums(log, m.periodSecs, Between(start, end));
      if m.periodSecs > 0 && Multiple(start, m.periodSecs) && Multiple(end + 1, m.periodSecs) {
        WholePeriodsBilledExactly(log, m.periodSecs, start, end);
      }
    }
  }

  lemma BillsAll(meters: Meters, history: seq<Usage>, sub: string, start: int, end: int)
    ensures AllCount(meters, history) && InTimeOrder(history) ==>
              forall i :: 0 <= i < |MetersFor(meters, sub)| ==>
                var m := MetersFor(meters, sub)[i];
                Fits(StateOf(meters, sub, m.metric), LogOf(history, sub, m.metric)) ==>
                  BillsTheLog(m, SumBuckets(m.buckets, Between(start, end)), LogOf(history, sub, m.metric), start, end)
  {
    hide BillsTheLog, Counts, Fits, InTimeOrder;
    if AllCount(meters, history) && InTimeOrder(history) {
      var ms := MetersFor(meters, sub);
      forall i | 0 <= i < |ms| && Fits(StateOf(meters, sub, ms[i].metric), LogOf(history, sub, ms[i].metric))
        ensures BillsTheLog(ms[i], SumBuckets(ms[i].buckets, Between(start, end)), LogOf(history, sub, ms[i].metric),
                            start, end)
      {
        assert EachOnce(ms);
        assert FindMeter(ms, ms[i].metric) == i;
        assert StateOf(meters, sub, ms[i].metric) == Some(ms[i]);
        FilterInTimeOrder(history, OfMeter(sub, ms[i].metric));
        BillsOne(ms[i], LogOf(history, sub, ms[i].metric), start, end);
      }
    }
  }

  lemma PositiveMore(history: seq<Usage>, u: Usage)
    requires Positive(history) && u.value > 0
    ensures Positive(history + [u])
  {
  }

  lemma LogPositive(history: seq<Usage>, sub: string, metric: string)
    requires Positive(history)
    ensures Positive(LogOf(history, sub, metric))
  {
    forall u | u in LogOf(history, sub, metric) ensures u in history {
      FilterCount(history, OfMeter(sub, metric), u);
      assert u in multiset(LogOf(history, sub, metric));
    }
  }

  lemma {:induction false} FitsExactly(log: seq<Usage>, existing: Meter, now: Meter)
    requires Positive(log) && existing.buckets == now.buckets
    ensures Fits(Some(existing), log) ==>
              var p, q := existing.periodSecs, now.periodSecs;
              && (Fits(Some(now), log) <==> Alike(log, p, q, MAX_BUCKETS))
              && (|now.buckets| < MAX_BUCKETS ==> (Alike(log, p, q, MAX_BUCKETS) <==> SameStarts(log, p, q)))
  {
    hide Grouped, Alike, SameStarts;
    if Fits(Some(existing), log) {
      LastAlikeExactly(log, existing.periodSecs, now.periodSecs, MAX_BUCKETS);
      if |now.buckets| < MAX_BUCKETS { AlikeWhole(log, existing.periodSecs, now.periodSecs, MAX_BUCKETS); }
    }
  }

  lemma StateOfMetric(meters: Meters, sub: string, metric: string)
    ensures StateOf(meters, sub, metric).Some? ==> StateOf(meters, sub, metric).value.metric == metric
  {
  }

  /** The amounts of a charge add up. */
  lemma {:induction false} AmountsAddUp(a: seq<ChargeLine>, b: seq<ChargeLine>, line: ChargeLine)
    ensures SumAmounts([]) == 0 && SumAmounts([line]) == line.amount
    ensures SumAmounts(a + b) == SumAmounts(a) + SumAmounts(b)
  {
    assert [line][..0] == [];
    if b == [] {
      assert a + b == a;
    } else {
      AmountsAddUp(a, b[..|b| - 1], line);
      assert (a + b)[..|a + b| - 1] == a + b[..|b| - 1];
    }
  }

  lemma NewCounts(metric: string, period: nat)
    ensures Counts(Some(NewMeter(metric, period)), []) && Fits(Some(NewMeter(metric, period)), [])
  {
  }
}
