/** Subscriber credit in expiring lots, consumed oldest first. */
module CreditStores {
  import opened Sequences

  /** A JavaScript number used as an amount. */
  datatype Number = NotFinite | Finite(r: real)

  datatype TxKind = Issue | Apply | TransferIn | TransferOut | Expire

  datatype Lot = Lot(id: nat, remaining: real, issuedAt: int, expiresAt: Option<int>)

  /** A ledger line; outflows are negative. */
  datatype Tx = Tx(id: nat, kind: TxKind, amount: real, counterparty: Option<string>)

  datatype Policy = Never | AfterSecs(seconds: int)

  datatype Account = Account(balance: real, lots: seq<Lot>, transactions: seq<Tx>, policy: Policy)

  const BLANK := Account(0.0, [], [], Never)

  const MAX_HISTORY := 128

  predicate IsPositiveAmount(amount: Number) {
    amount.Finite? && amount.r > 0.0
  }

  predicate IsExpired(lot: Lot, now: int) {
    lot.expiresAt.Some? && lot.expiresAt.value <= now
  }

  predicate IsLive(lot: Lot, now: int) {
    lot.remaining > 0.0 && !IsExpired(lot, now)
  }

  predicate IsLapsed(lot: Lot, now: int) {
    lot.remaining > 0.0 && IsExpired(lot, now)
  }

  function SumLots(lots: seq<Lot>): real {
    if lots == [] then 0.0 else SumLots(lots[..|lots| - 1]) + lots[|lots| - 1].remaining
  }

  function Available(lots: seq<Lot>, now: int): real {
    if lots == [] then 0.0
    else
      var last := lots[|lots| - 1];
      Available(lots[..|lots| - 1], now) + if IsLive(last, now) then last.remaining else 0.0
  }

  function Lapsed(lots: seq<Lot>, now: int): real {
    if lots == [] then 0.0
    else
      var last := lots[|lots| - 1];
      Lapsed(lots[..|lots| - 1], now) + if IsLapsed(last, now) then last.remaining else 0.0
  }

  function Emptied(now: int): Lot -> Lot {
    (lot: Lot) => if IsLapsed(lot, now) then lot.(remaining := 0.0) else lot
  }

  function Min(x: real, y: real): real { if x < y then x else y }
  function Max(x: real, y: real): real { if x < y then y else x }

  /** The share of the lot at `i`: what is left to take once all earlier live lots
      have given what they have. */
  function Share(lots: seq<Lot>, now: int, amount: real, i: nat): real
    requires i < |lots|
  {
    if IsLive(lots[i], now) then Min(lots[i].remaining, Max(0.0, amount - Available(lots[..i], now))) else 0.0
  }

  /** The lots after `amount` is taken greedily, oldest first. */
  function Consumed(lots: seq<Lot>, now: int, amount: real): (after: seq<Lot>)
    ensures |after| == |lots|
  {
    seq(|lots|, i requires 0 <= i < |lots| => lots[i].(remaining := lots[i].remaining - Share(lots, now, amount, i)))
  }

  ghost predicate NonNegative(lots: seq<Lot>) {
    forall i :: 0 <= i < |lots| ==> lots[i].remaining >= 0.0
  }

  /** The loop of `realizeExpiry`. */
  method ExpireLots(lots: seq<Lot>, now: int) returns (after: seq<Lot>, expired: real)
    ensures after == Map(lots, Emptied(now)) && expired == Lapsed(lots, now)
  {
    after, expired := [], 0.0;
    for i := 0 to |lots|
      invariant after == Map(lots[..i], Emptied(now)) && expired == Lapsed(lots[..i], now)
    {
      assert lots[..i + 1][..i] == lots[..i];
      var lot := lots[i];
      if lot.remaining > 0.0 && IsExpired(lot, now) {
        expired := expired + lot.remaining;
        after := after + [lot.(remaining := 0.0)];
      } else {
        after := after + [lot];
      }
    }
    assert lots[..|lots|] == lots;
  }

  /** The loop of `consume`, with its running remainder. */
  method Consume(lots: seq<Lot>, now: int, amount: real) returns (after: seq<Lot>, taken: real)
    ensures after == Consumed(lots, now, amount)
    ensures taken == if amount <= 0.0 then 0.0 else Min(amount, Available(lots, now))
  {
    after := [];
    var remaining := amount;
    for i := 0 to |lots|
      invariant remaining == if amount <= 0.0 then amount else Max(0.0, amount - Available(lots[..i], now))
      invariant |after| == i
      invariant forall j :: 0 <= j < i ==> after[j] == Consumed(lots, now, amount)[j]
    {
      assert lots[..i + 1][..i] == lots[..i];
      AvailableNonNegative(lots[..i], now);
      var lot := lots[i];
      if remaining <= 0.0 || lot.remaining <= 0.0 || IsExpired(lot, now) {
        after := after + [lot];
        continue;
      }
      var take := if lot.remaining < remaining then lot.remaining else remaining;
      remaining := remaining - take;
      after := after + [lot.(remaining := lot.remaining - take)];
    }
    assert lots[..|lots|] == lots;
    AvailableNonNegative(lots, now);
    taken := amount - remaining;
  }

  lemma {:induction false} AvailableNonNegative(lots: seq<Lot>, now: int)
    ensures Available(lots, now) >= 0.0
  {
    if lots != [] { AvailableNonNegative(lots[..|lots| - 1], now); }
  }

  lemma {:induction false} AvailableGrows(lots: seq<Lot>, now: int, i: nat, j: nat)
    requires i <= j <= |lots|
    ensures Available(lots[..i], now) <= Available(lots[..j], now)
    ensures i < j && IsLive(lots[i], now) ==> Available(lots[..i], now) + lots[i].remaining <= Available(lots[..j], now)
    decreases j - i
  {
    if i < j {
      assert lots[..j][..j - 1] == lots[..j - 1];
      AvailableGrows(lots, now, i, j - 1);
    }
  }

  /** First in, first out: a lot is touched only when every earlier live lot is
      emptied, and expired lots are never touched. */
  lemma ConsumeIsFifo(lots: seq<Lot>, now: int, amount: real)
    ensures var after := Consumed(lots, now, amount);
            && (forall j :: 0 <= j < |lots| && !IsLive(lots[j], now) ==> after[j] == lots[j])
            && (forall i, j :: 0 <= i < j < |lots| && IsLive(lots[i], now) && after[j] != lots[j] ==>
                after[i].remaining == 0.0)
  {
    var after := Consumed(lots, now, amount);
    forall i, j | 0 <= i < j < |lots| && IsLive(lots[i], now) && after[j] != lots[j]
      ensures after[i].remaining == 0.0
    {
      AvailableGrows(lots, now, i, j);
    }
  }

  /** What consumption takes leaves the lots, and nothing goes below zero. */
  lemma {:induction false} ConsumeTakes(lots: seq<Lot>, now: int, amount: real)
    requires NonNegative(lots)
    ensures NonNegative(Consumed(lots, now, amount))
    ensures SumLots(Consumed(lots, now, amount)) ==
            SumLots(lots) - if amount <= 0.0 then 0.0 else Min(amount, Available(lots, now))
  {
    if lots != [] {
      var last := |lots| - 1;
      var init := lots[..last];
      ConsumeTakes(init, now, amount);
      AvailableNonNegative(init, now);
      assert Consumed(lots, now, amount)[..last] == Consumed(init, now, amount) by {
        forall i | 0 <= i < last ensures Consumed(lots, now, amount)[i] == Consumed(init, now, amount)[i] {
          assert init[..i] == lots[..i];
        }
      }
    }
  }

  /** Emptying lapsed lots removes exactly the lapsed credit and leaves what is
      available. */
  lemma {:induction false} ExpiryRemoves(lots: seq<Lot>, now: int)
    requires NonNegative(lots)
    ensures var after := Map(lots, Emptied(now));
            && NonNegative(after)
            && SumLots(after) == SumLots(lots) - Lapsed(lots, now) == Available(lots, now) == Available(after, now)
            && Lapsed(lots, now) >= 0.0
  {
    if lots != [] {
      var last := |lots| - 1;
      ExpiryRemoves(lots[..last], now);
      assert Map(lots, Emptied(now))[..last] == Map(lots[..last], Emptied(now));
    }
  }

  // --------------------------------------------------------------- accounts

  function SumTx(ledger: seq<Tx>): real {
    if ledger == [] then 0.0 else SumTx(ledger[..|ledger| - 1]) + ledger[|ledger| - 1].amount
  }

  /** `slice(-MAX_HISTORY)`. */
  function Recent<T>(ledger: seq<T>): seq<T> {
    if |ledger| <= MAX_HISTORY then ledger else ledger[|ledger| - MAX_HISTORY..]
  }

  /** An account at work: the account, its whole ledger, and the next free id. */
  datatype Book = Book(acc: Account, ledger: seq<Tx>, nextId: nat)

  /** The account invariant. */
  ghost predicate Balanced(acc: Account, ledger: seq<Tx>) {
    && NonNegative(acc.lots)
    && acc.balance == SumLots(acc.lots) == SumTx(ledger)
    && acc.transactions == Recent(ledger)
  }

  ghost predicate Ok(b: Book) {
    Balanced(b.acc, b.ledger)
  }

  function Record(b: Book, kind: TxKind, amount: real, counterparty: Option<string>): Book {
    var tx := Tx(b.nextId, kind, amount, counterparty);
    Book(b.acc.(transactions := Recent(b.acc.transactions + [tx])), b.ledger + [tx], b.nextId + 1)
  }

  function RealizeExpiry(b: Book, now: int): Book {
    var expired := Lapsed(b.acc.lots, now);
    var c := b.(acc := b.acc.(lots := Map(b.acc.lots, Emptied(now))));
    if expired > 0.0 then Record(c.(acc := c.acc.(balance := c.acc.balance - expired)), Expire, -expired, None) else c
  }

  /** A new lot, under the account's policy unless an expiry is given. */
  function Credit(b: Book, amount: real, expiresAt: Option<int>, now: int, kind: TxKind,
                  counterparty: Option<string>): Book {
    var expiry := if expiresAt.Some? then expiresAt
                  else if b.acc.policy.AfterSecs? then Some(now + b.acc.policy.seconds) else None;
    var acc := b.acc.(lots := b.acc.lots + [Lot(b.nextId, amount, now, expiry)], balance := b.acc.balance + amount);
    Record(Book(acc, b.ledger, b.nextId + 1), kind, amount, counterparty)
  }

  function Spendable(b: Book, now: int, amount: real): real {
    if amount <= 0.0 then 0.0 else Min(amount, Available(b.acc.lots, now))
  }

  function Spend(b: Book, now: int, amount: real, kind: TxKind, counterparty: Option<string>): Book {
    var taken := Spendable(b, now, amount);
    var c := b.(acc := b.acc.(lots := Consumed(b.acc.lots, now, amount)));
    if taken > 0.0 then Record(c.(acc := c.acc.(balance := c.acc.balance - taken)), kind, -taken, counterparty) else c
  }

  lemma RecordKeeps(b: Book, kind: TxKind, amount: real, counterparty: Option<string>)
    requires b.acc.transactions == Recent(b.ledger)
    ensures var c := Record(b, kind, amount, counterparty);
            c.acc.transactions == Recent(c.ledger) && SumTx(c.ledger) == SumTx(b.ledger) + amount
  {
    var tx := Tx(b.nextId, kind, amount, counterparty);
    assert (b.ledger + [tx])[..|b.ledger|] == b.ledger;
    assert Recent(Recent(b.ledger) + [tx]) == Recent(b.ledger + [tx]);
  }

  /** Realizing expiry keeps the invariant and leaves as balance what `getBalance`
      answers at the same instant. */
  lemma {:induction false} RealizeExpiryKeeps(b: Book, now: int)
    requires Ok(b)
    ensures var c := RealizeExpiry(b, now);
            && Ok(c) && c.acc.balance == b.acc.balance - Lapsed(b.acc.lots, now)
            && c.acc.balance == Available(b.acc.lots, now) == Available(c.acc.lots, now)
            && c.acc.policy == b.acc.policy && Lapsed(b.acc.lots, now) >= 0.0
  {
    hide Map, Available, Lapsed, SumLots, Recent, SumTx, NonNegative;
    var expired := Lapsed(b.acc.lots, now);
    ExpiryRemoves(b.acc.lots, now);
    RecordKeeps(b, Expire, -expired, None);
  }

  lemma CreditKeeps(b: Book, amount: real, expiresAt: Option<int>, now: int, kind: TxKind, counterparty: Option<string>)
    requires Ok(b) && amount > 0.0
    ensures var c := Credit(b, amount, expiresAt, now, kind, counterparty);
            Ok(c) && c.acc.balance == b.acc.balance + amount && c.acc.policy == b.acc.policy
  {
    hide Recent, SumTx;
    RecordKeeps(b.(nextId := b.nextId + 1), kind, amount, counterparty);
    var c := Credit(b, amount, expiresAt, now, kind, counterparty);
    assert c.acc.lots[..|b.acc.lots|] == b.acc.lots;
  }

  lemma SpendKeeps(b: Book, now: int, amount: real, kind: TxKind, counterparty: Option<string>)
    requires Ok(b)
    ensures var c := Spend(b, now, amount, kind, counterparty);
            Ok(c) && c.acc.balance == b.acc.balance - Spendable(b, now, amount) && c.acc.policy == b.acc.policy
  {
    hide Consumed, Available, SumLots, Recent, SumTx, NonNegative;
    ConsumeTakes(b.acc.lots, now, amount);
    AvailableNonNegative(b.acc.lots, now);
    RecordKeeps(b, kind, -Spendable(b, now, amount), counterparty);
  }

  // ------------------------------------------------ what the amounts stand for

  /** What a lot adds to the credit available, and to the credit lapsed: all that is left
      of it, before its expiry the one and from then on the other. */
  lemma {:induction false} OneMoreLot(lots: seq<Lot>, lot: Lot, now: int)
    ensures Available(lots + [lot], now) - Available(lots, now)
            == if lot.remaining > 0.0 && (lot.expiresAt.None? || now < lot.expiresAt.value) then lot.remaining else 0.0
    ensures Lapsed(lots + [lot], now) - Lapsed(lots, now)
            == if lot.remaining > 0.0 && lot.expiresAt.Some? && lot.expiresAt.value <= now then lot.remaining else 0.0
    ensures Available([], now) == Lapsed([], now) == 0.0
  {
    assert (lots + [lot])[..|lots|] == lots;
  }

  /** Emptying lapsed lots changes nothing of what is available then or later. */
  lemma {:induction false} EmptiedStays(lots: seq<Lot>, now: int, later: int)
    requires now <= later
    ensures Available(Map(lots, Emptied(now)), later) == Available(lots, later)
  {
    if lots != [] {
      var last := |lots| - 1;
      EmptiedStays(lots[..last], now, later);
      assert Map(lots, Emptied(now))[..last] == Map(lots[..last], Emptied(now));
    }
  }

  /** Expiry realized on the way makes no difference to a later balance. */
  lemma ExpiresOnce(b: Book, now: int, later: int)
    requires Ok(b) && now <= later
    ensures RealizeExpiry(RealizeExpiry(b, now), later).acc.balance == RealizeExpiry(b, later).acc.balance
  {
    hide Map, Available, Lapsed, SumLots, Recent, SumTx, NonNegative, Balanced;
    RealizeExpiryKeeps(b, now);
    RealizeExpiryKeeps(b, later);
    RealizeExpiryKeeps(RealizeExpiry(b, now), later);
    EmptiedStays(b.acc.lots, now, later);
  }

  /** What is credited is in the balance at every instant before its expiry, the one given
      or the one that the account's policy sets, and at none from it on. */
  lemma CreditCounts(b: Book, amount: real, expiresAt: Option<int>, now: int, kind: TxKind,
                     counterparty: Option<string>,
                     later: int)
    requires Ok(b) && amount > 0.0 && now <= later
    ensures var expiry := match expiresAt
                          case Some(at) => Some(at)
                          case None => match b.acc.policy
                                       case AfterSecs(seconds) => Some(now + seconds)
                                       case Never => None;
            var credited := Credit(RealizeExpiry(b, now), amount, expiresAt, now, kind, counterparty);
            RealizeExpiry(credited, later).acc.balance
            == RealizeExpiry(b, later).acc.balance + if expiry.None? || later < expiry.value then amount else 0.0
  {
    hide Map, Available, Lapsed, SumLots, Recent, SumTx, NonNegative, Balanced, RealizeExpiry;
    var settled := RealizeExpiry(b, now);
    RealizeExpiryKeeps(b, now);
    CreditKeeps(settled, amount, expiresAt, now, kind, counterparty);
    var credited := Credit(settled, amount, expiresAt, now, kind, counterparty);
    RealizeExpiryKeeps(credited, later);
    RealizeExpiryKeeps(settled, later);
    ExpiresOnce(b, now, later);
    OneMoreLot(settled.acc.lots, credited.acc.lots[|settled.acc.lots|], later);
  }

  /** The ledger lines: a credit enters its amount, a spending what it took and an expiry
      what lapsed, as outflows, if that is anything. */
  lemma {:induction false} EntersLines(b: Book, amount: real, expiresAt: Option<int>, now: int, kind: TxKind,
                                       counterparty: Option<string>)
    ensures Credit(b, amount, expiresAt, now, kind, counterparty).ledger
            == b.ledger + [Tx(b.nextId + 1, kind, amount, counterparty)]
    ensures var taken := if amount <= 0.0 then 0.0 else Min(amount, Available(b.acc.lots, now));
            Spend(b, now, amount, kind, counterparty).ledger
            == b.ledger + if taken > 0.0 then [Tx(b.nextId, kind, -taken, counterparty)] else []
    ensures var lapsed := Lapsed(b.acc.lots, now);
            RealizeExpiry(b, now).ledger
            == b.ledger + if lapsed > 0.0 then [Tx(b.nextId, Expire, -lapsed, None)] else []
    ensures Min(amount, Available(b.acc.lots, now))
            == if amount < Available(b.acc.lots, now) then amount else Available(b.acc.lots, now)
  {
  }

  /** Lots and ledger lines carry ids below the next free one, in the order they were made,
      and no lot shares one with a line. */
  ghost predicate Numbered(b: Book) {
    && (forall i :: 0 <= i < |b.acc.lots| ==> b.acc.lots[i].id < b.nextId)
    && (forall i :: 0 <= i < |b.ledger| ==> b.ledger[i].id < b.nextId)
    && (forall i, j :: 0 <= i < j < |b.acc.lots| ==> b.acc.lots[i].id < b.acc.lots[j].id)
    && (forall i, j :: 0 <= i < j < |b.ledger| ==> b.ledger[i].id < b.ledger[j].id)
    && forall i, j :: 0 <= i < |b.acc.lots| && 0 <= j < |b.ledger| ==> b.acc.lots[i].id != b.ledger[j].id
  }

  /** One id for each lot and each line that is added, and none is used twice. */
  ghost predicate NumbersOn(b: Book, c: Book) {
    && (Numbered(b) ==> Numbered(c))
    && c.nextId == b.nextId + (|c.acc.lots| - |b.acc.lots|) + (|c.ledger| - |b.ledger|)
  }

  lemma RecordNumbers(b: Book, kind: TxKind, amount: real, counterparty: Option<string>)
    ensures NumbersOn(b, Record(b, kind, amount, counterparty))
  {
  }

  lemma LotsAlike(b: Book, c: Book)
    requires b.ledger == c.ledger && b.nextId == c.nextId && |b.acc.lots| == |c.acc.lots|
    requires forall i :: 0 <= i < |b.acc.lots| ==> b.acc.lots[i].id == c.acc.lots[i].id
    ensures NumbersOn(b, c)
  {
  }

  /** Expiry, credit and spending give out ids in order, each once. */
  lemma EachIdOnce(b: Book, now: int, amount: real, expiresAt: Option<int>, kind: TxKind, counterparty: Option<string>)
    ensures NumbersOn(b, RealizeExpiry(b, now))
    ensures NumbersOn(b, Credit(b, amount, expiresAt, now, kind, counterparty))
    ensures NumbersOn(b, Spend(b, now, amount, kind, counterparty))
    ensures Numbered(b) ==> forall later :: later >= b.nextId ==> Numbered(b.(nextId := later))
  {
    hide Recent, Lapsed, IsLapsed, Share, Spendable, Record, NumbersOn;
    var expired := b.(acc := b.acc.(lots := Map(b.acc.lots, Emptied(now)),
                                    balance := b.acc.balance - Lapsed(b.acc.lots, now)));
    LotsAlike(b, expired);
    LotsAlike(b, expired.(acc := expired.acc.(balance := b.acc.balance)));
    RecordNumbers(expired, Expire, -Lapsed(b.acc.lots, now), None);
    NumbersThrough(b, expired, RealizeExpiry(b, now));
    var taken := Spendable(b, now, amount);
    var spent := b.(acc := b.acc.(lots := Consumed(b.acc.lots, now, amount), balance := b.acc.balance - taken));
    LotsAlike(b, spent);
    LotsAlike(b, spent.(acc := spent.acc.(balance := b.acc.balance)));
    RecordNumbers(spent, kind, -taken, counterparty);
    NumbersThrough(b, spent, Spend(b, now, amount, kind, counterparty));
    CreditNumbers(b, amount, expiresAt, now, kind, counterparty);
  }

  lemma NumbersThrough(b: Book, c: Book, d: Book)
    ensures NumbersOn(b, c) && NumbersOn(c, d) ==> NumbersOn(b, d)
  {
    hide Numbered;
  }

  lemma CreditNumbers(b: Book, amount: real, expiresAt: Option<int>, now: int, kind: TxKind,
                      counterparty: Option<string>)
    ensures NumbersOn(b, Credit(b, amount, expiresAt, now, kind, counterparty))
  {
    hide Recent;
  }

  /** An account shows the last 128 lines of its ledger, all while there are no more. */
  lemma ShowsRecent(acc: Account, ledger: seq<Tx>)
    requires Balanced(acc, ledger)
    ensures |acc.transactions| == if |ledger| < 128 then |ledger| else 128
    ensures forall i :: 0 <= i < |acc.transactions| ==> acc.transactions[i] == ledger[|ledger| - |acc.transactions| + i]
  {
    hide SumLots, SumTx, NonNegative;
  }

  // -------------------------------------------------------------- the store

  /** The sum of the stored balances of the listed subscribers. */
  ghost function Total(names: seq<string>, accounts: map<string, Account>): real
    requires forall n :: n in names ==> n in accounts
  {
    if names == [] then 0.0
    else Total(names[..|names| - 1], accounts) + accounts[names[|names| - 1]].balance
  }

  ghost predicate NoRepeats(names: seq<string>) {
    forall i, j :: 0 <= i < j < |names| ==> names[i] != names[j]
  }

  lemma {:induction false} TotalUpdate(names: seq<string>, accounts: map<string, Account>, name: string, acc: Account)
    requires NoRepeats(names) && forall n :: n in names ==> n in accounts
    ensures Total(names, accounts[name := acc]) ==
            Total(names, accounts) + if name in names then acc.balance - accounts[name].balance else 0.0
  {
    if names != [] {
      var last := |names| - 1;
      TotalUpdate(names[..last], accounts, name, acc);
      assert name in names <==> name in names[..last] || name == names[last];
      if name in names[..last] {
        var i :| 0 <= i < last && names[i] == name;
        assert names[i] != names[last];
      }
    }
  }

  class CreditStore {
    var accounts: map<string, Account>
    var nextId: nat
    /** Subscribers in the order of their first commit. */
    ghost var names: seq<string>
    /** Whole ledgers, and what was ever issued, applied and expired. */
    ghost var ledgers: map<string, seq<Tx>>
    ghost var issued: real
    ghost var applied: real
    ghost var expired: real

    /** Conservation: each account is balanced, and together they hold what was
        issued and neither applied nor expired. */
    ghost predicate Valid()
      reads this
    {
      Conserves(0.0)
    }

    /** The same while `inTransit` is between two accounts. */
    ghost predicate Conserves(inTransit: real)
      reads this
    {
      && NoRepeats(names) && (forall n :: n in names <==> n in accounts) && accounts.Keys == ledgers.Keys
      && (forall n :: n in accounts ==> Balanced(accounts[n], ledgers[n]))
      && Total(names, accounts) + inTransit == issued - applied - expired
    }

    ghost function BookOf(subscriber: string): Book
      requires accounts.Keys == ledgers.Keys
      reads this
    {
      if subscriber in accounts then Book(accounts[subscriber], ledgers[subscriber], nextId)
      else Book(BLANK, [], nextId)
    }

    function AccountOf(subscriber: string): Account
      reads this
    {
      if subscriber in accounts then accounts[subscriber] else BLANK
    }

    constructor ()
      ensures Valid() && accounts == map[] && nextId == 0
    {
      accounts, nextId, names, ledgers := map[], 0, [], map[];
      issued, applied, expired := 0.0, 0.0, 0.0;
    }

    /** Stores a working copy. */
    method Commit(subscriber: string, acc: Account, ghost ledger: seq<Tx>)
      requires NoRepeats(names) && (forall n :: n in names <==> n in accounts) && accounts.Keys == ledgers.Keys
      modifies `accounts, `names, `ledgers
      ensures NoRepeats(names) && forall n :: n in names <==> n in accounts
      ensures accounts == old(accounts)[subscriber := acc] && ledgers == old(ledgers)[subscriber := ledger]
      ensures Total(names, accounts) == old(Total(names, accounts)) + acc.balance - old(AccountOf(subscriber)).balance
    {
      TotalUpdate(names, accounts, subscriber, acc);
      if subscriber !in accounts {
        names := names + [subscriber];
        assert names[..|names| - 1] == old(names);
      }
      accounts := accounts[subscriber := acc];
      ledgers := ledgers[subscriber := ledger];
    }

    /** Appends a ledger line to a working copy. */
    method RecordTx(acc: Account, kind: TxKind, amount: real, counterparty: Option<string>, ghost ledger: seq<Tx>)
      returns (after: Account, ghost ledger': seq<Tx>)
      modifies `nextId
      ensures Book(after, ledger', nextId) == Record(Book(acc, ledger, old(nextId)), kind, amount, counterparty)
    {
      var tx := Tx(nextId, kind, amount, counterparty);
      after := acc.(transactions := Recent(acc.transactions + [tx]));
      ledger' := ledger + [tx];
      nextId := nextId + 1;
    }

    method RealizeAccountExpiry(acc: Account, now: int, ghost ledger: seq<Tx>)
      returns (after: Account, lapsed: real, ghost ledger': seq<Tx>)
      modifies `nextId
      ensures Book(after, ledger', nextId) == RealizeExpiry(Book(acc, ledger, old(nextId)), now)
      ensures lapsed == Lapsed(acc.lots, now)
    {
      var lots;
      lots, lapsed := ExpireLots(acc.lots, now);
      after, ledger' := acc.(lots := lots), ledger;
      if lapsed > 0.0 {
        after, ledger' := RecordTx(after.(balance := after.balance - lapsed), Expire, -lapsed, None, ledger);
      }
    }

    /** Takes up to `amount` from a working copy and records it. */
    method SpendFrom(acc: Account, now: int, amount: real, kind: TxKind, counterparty: Option<string>,
                     ghost ledger: seq<Tx>)
      returns (after: Account, taken: real, ghost ledger': seq<Tx>)
      modifies `nextId
      ensures Book(after, ledger', nextId) == Spend(Book(acc, ledger, old(nextId)), now, amount, kind, counterparty)
      ensures taken == Spendable(Book(acc, ledger, old(nextId)), now, amount)
    {
      var lots;
      lots, taken := Consume(acc.lots, now, amount);
      after, ledger' := acc.(lots := lots), ledger;
      if taken > 0.0 {
        after, ledger' := RecordTx(after.(balance := after.balance - taken), kind, -taken, counterparty, ledger);
      }
    }

    method CreditTo(acc: Account, amount: real, expiresAt: Option<int>, now: int, kind: TxKind,
                    counterparty: Option<string>,
                    ghost ledger: seq<Tx>)
      returns (after: Account, ghost ledger': seq<Tx>)
      modifies `nextId
      ensures Book(after, ledger', nextId) == Credit(Book(acc, ledger, old(nextId)), amount, expiresAt, now, kind,
                                                     counterparty)
    {
      var expiry := if expiresAt.Some? then expiresAt
                    else if acc.policy.AfterSecs? then Some(now + acc.policy.seconds) else None;
      var lot := Lot(nextId, amount, now, expiry);
      nextId := nextId + 1;
      after := acc.(lots := acc.lots + [lot], balance := acc.balance + amount);
      after, ledger' := RecordTx(after, kind, amount, counterparty, ledger);
    }

    method IssueCredit(subscriber: string, amount: Number, expiresAt: Option<int>, now: int)
      requires Valid()
      modifies this
      ensures Valid()
      ensures if !(amount.Finite? && amount.r > 0.0)
              then accounts == old(accounts) && ledgers == old(ledgers) && issued == old(issued)
                  && expired == old(expired)
              else var book := Credit(RealizeExpiry(old(BookOf(subscriber)), now), amount.r, expiresAt, now, Issue,
                                      None);
                   && accounts == old(accounts)[subscriber := book.acc]
                     && ledgers == old(ledgers)[subscriber := book.ledger]
                   && nextId == book.nextId
                   && issued == old(issued) + amount.r
                   && expired == old(expired) + Lapsed(old(AccountOf(subscriber)).lots, now)
      ensures applied == old(applied)
    {
      hide Balanced, RealizeExpiry, Credit, Lapsed, NoRepeats, Total;
      if !IsPositiveAmount(amount) { return; }
      ghost var book := BookOf(subscriber);
      BlankIsOk();
      var acc, lapsed, ledger := RealizeAccountExpiry(AccountOf(subscriber), now, book.ledger);
      RealizeExpiryKeeps(book, now);
      CreditKeeps(Book(acc, ledger, nextId), amount.r, expiresAt, now, Issue, None);
      acc, ledger := CreditTo(acc, amount.r, expiresAt, now, Issue, None, ledger);
      Commit(subscriber, acc, ledger);
      issued, expired := issued + amount.r, expired + lapsed;
    }

    method SetExpirationPolicy(subscriber: string, policy: Policy)
      requires Valid()
      modifies this
      ensures Valid() && nextId == old(nextId)
      ensures accounts == old(accounts)[subscriber := old(AccountOf(subscriber)).(policy := policy)]
      ensures ledgers == old(ledgers)[subscriber := old(BookOf(subscriber)).ledger]
      ensures issued == old(issued) && applied == old(applied) && expired == old(expired)
    {
      hide NoRepeats, Total, Balanced;
      BlankIsOk();
      PolicyKeeps(AccountOf(subscriber), BookOf(subscriber).ledger, policy);
      Commit(subscriber, AccountOf(subscriber).(policy := policy), BookOf(subscriber).ledger);
    }

    /** Pays a charge from credit, as far as it goes. */
    method ApplyCredit(subscriber: string, amountDue: Number, now: int)
      returns (paid: real, remainingDue: real, balanceAfter: real)
      requires Valid()
      modifies this
      ensures Valid()
      ensures var due := if amountDue.Finite? then Max(0.0, amountDue.r) else 0.0;
              var settled := RealizeExpiry(old(BookOf(subscriber)), now);
              var book := Spend(settled, now, due, Apply, None);
              && paid == Min(due, Available(old(AccountOf(subscriber)).lots, now)) && remainingDue == due - paid
              && accounts == old(accounts)[subscriber := book.acc] && ledgers == old(ledgers)[subscriber := book.ledger]
              && nextId == book.nextId && balanceAfter == book.acc.balance == settled.acc.balance - paid
              && applied == old(applied) + paid
              && expired == old(expired) + Lapsed(old(AccountOf(subscriber)).lots, now)
      ensures issued == old(issued)
    {
      hide Balanced, RealizeExpiry, Spend, Available, Lapsed, NoRepeats, Total;
      ghost var book := BookOf(subscriber);
      BlankIsOk();
      var acc, lapsed, ledger := RealizeAccountExpiry(AccountOf(subscriber), now, book.ledger);
      RealizeExpiryKeeps(book, now);
      var due := if amountDue.Finite? then Max(0.0, amountDue.r) else 0.0;
      SpendKeeps(Book(acc, ledger, nextId), now, due, Apply, None);
      AvailableNonNegative(acc.lots, now);
      acc, paid, ledger := SpendFrom(acc, now, due, Apply, None, ledger);
      Commit(subscriber, acc, ledger);
      applied, expired := applied + paid, expired + lapsed;
      remainingDue, balanceAfter := due - paid, acc.balance;
    }

    /** Moves credit between accounts: all of it or nothing. */
    method TransferCredit(from: string, to: string, amount: Number, now: int) returns (done: bool)
      requires Valid()
      modifies this
      ensures Valid()
      ensures done <==> && amount.Finite? && amount.r > 0.0 && from != to
                        && Available(old(AccountOf(from)).lots, now) >= amount.r
      ensures !done ==> accounts == old(accounts) && ledgers == old(ledgers) && expired == old(expired)
      ensures done ==>
        var sender := Spend(RealizeExpiry(old(BookOf(from)), now), now, amount.r, TransferOut, Some(to));
        var recipient := Credit(RealizeExpiry(old(BookOf(to)).(nextId := sender.nextId), now), amount.r, None, now,
                                TransferIn, Some(from));
        && accounts == old(accounts)[from := sender.acc][to := recipient.acc]
        && ledgers == old(ledgers)[from := sender.ledger][to := recipient.ledger] && nextId == recipient.nextId
        && sender.acc.balance == Available(old(AccountOf(from)).lots, now) - amount.r
        && recipient.acc.balance == Available(old(AccountOf(to)).lots, now) + amount.r
        && expired == old(expired) + Lapsed(old(AccountOf(from)).lots, now) + Lapsed(old(AccountOf(to)).lots, now)
      ensures issued == old(issued) && applied == old(applied)
    {
      hide Conserves, RealizeExpiry, Spend, Credit, Lapsed, Available;
      if !IsPositiveAmount(amount) || from == to { return false; }
      done := SendTo(from, to, amount.r, now);
      if !done { return false; }
      Receive(to, from, amount.r, now);
    }

    /** The sender's half of a transfer. */
    method SendTo(from: string, to: string, amount: real, now: int) returns (done: bool)
      requires Valid() && amount > 0.0
      modifies this
      ensures done <==> Available(old(AccountOf(from)).lots, now) >= amount
      ensures !done ==> Valid() && accounts == old(accounts) && ledgers == old(ledgers) && expired == old(expired)
      ensures done ==>
        var sender := Spend(RealizeExpiry(old(BookOf(from)), now), now, amount, TransferOut, Some(to));
        && Conserves(amount)
        && accounts == old(accounts)[from := sender.acc] && ledgers == old(ledgers)[from := sender.ledger]
        && nextId == sender.nextId
        && sender.acc.balance == Available(old(AccountOf(from)).lots, now) - amount
        && expired == old(expired) + Lapsed(old(AccountOf(from)).lots, now)
      ensures issued == old(issued) && applied == old(applied)
    {
      hide Balanced, RealizeExpiry, Spend, Lapsed, NoRepeats, Total;
      ghost var book := BookOf(from);
      BlankIsOk();
      var sender, lapsed, ledger := RealizeAccountExpiry(AccountOf(from), now, book.ledger);
      RealizeExpiryKeeps(book, now);
      var available := AvailableOf(sender.lots, now);
      if available < amount { return false; }
      SpendKeeps(Book(sender, ledger, nextId), now, amount, TransferOut, Some(to));
      var moved;
      sender, moved, ledger := SpendFrom(sender, now, amount, TransferOut, Some(to), ledger);
      Commit(from, sender, ledger);
      expired := expired + lapsed;
      done := true;
    }

    /** The recipient's half of a transfer. */
    method Receive(to: string, from: string, amount: real, now: int)
      requires Conserves(amount) && amount > 0.0
      modifies this
      ensures Valid()
      ensures var recipient := Credit(RealizeExpiry(old(BookOf(to)), now), amount, None, now, TransferIn, Some(from));
              && accounts == old(accounts)[to := recipient.acc] && ledgers == old(ledgers)[to := recipient.ledger]
              && nextId == recipient.nextId
              && recipient.acc.balance == Available(old(AccountOf(to)).lots, now) + amount
              && expired == old(expired) + Lapsed(old(AccountOf(to)).lots, now)
      ensures issued == old(issued) && applied == old(applied)
    {
      hide Balanced, RealizeExpiry, Credit, Lapsed, NoRepeats, Total;
      ghost var book := BookOf(to);
      BlankIsOk();
      var recipient, lapsed, ledger := RealizeAccountExpiry(AccountOf(to), now, book.ledger);
      RealizeExpiryKeeps(book, now);
      CreditKeeps(Book(recipient, ledger, nextId), amount, None, now, TransferIn, Some(from));
      recipient, ledger := CreditTo(recipient, amount, None, now, TransferIn, Some(from), ledger);
      Commit(to, recipient, ledger);
      expired := expired + lapsed;
    }

    method ExpireCredits(subscriber: string, now: int) returns (lapsed: real)
      requires Valid()
      modifies this
      ensures Valid()
      ensures var book := RealizeExpiry(old(BookOf(subscriber)), now);
              && accounts == old(accounts)[subscriber := book.acc] && ledgers == old(ledgers)[subscriber := book.ledger]
              && nextId == book.nextId
              && lapsed == Lapsed(old(AccountOf(subscriber)).lots, now) && expired == old(expired) + lapsed
      ensures issued == old(issued) && applied == old(applied)
    {
      hide Balanced, RealizeExpiry, Lapsed, NoRepeats, Total;
      ghost var book := BookOf(subscriber);
      BlankIsOk();
      var acc;
      ghost var ledger;
      acc, lapsed, ledger := RealizeAccountExpiry(AccountOf(subscriber), now, book.ledger);
      RealizeExpiryKeeps(book, now);
      Commit(subscriber, acc, ledger);
      expired := expired + lapsed;
    }

    /** The balance a subscriber is shown: what realizing expiry now would leave. */
    method GetBalance(subscriber: string, now: int) returns (balance: real)
      requires Valid()
      ensures balance == RealizeExpiry(BookOf(subscriber), now).acc.balance
    {
      hide Balanced, RealizeExpiry;
      BlankIsOk();
      RealizeExpiryKeeps(BookOf(subscriber), now);
      balance := AvailableOf(AccountOf(subscriber).lots, now);
    }
  }

  lemma PolicyKeeps(acc: Account, ledger: seq<Tx>, policy: Policy)
    requires Balanced(acc, ledger)
    ensures Balanced(acc.(policy := policy), ledger)
  {
  }

  lemma BlankIsOk()
    ensures Balanced(BLANK, [])
  {
  }

  method AvailableOf(lots: seq<Lot>, now: int) returns (sum: real)
    ensures sum == Available(lots, now)
  {
    sum := 0.0;
    for i := 0 to |lots|
      invariant sum == Available(lots[..i], now)
    {
      assert lots[..i + 1][..i] == lots[..i];
      if lots[i].remaining > 0.0 && !IsExpired(lots[i], now) {
        sum := sum + lots[i].remaining;
      }
    }
    assert lots[..|lots|] == lots;
  }

  // ------------------------------------------------------- prepaid wallets

  datatype WalletTxKind = Deposited | Withdrawn | Drawn

  datatype WalletTx = WalletTx(id: nat, kind: WalletTxKind, amount: real, balanceAfter: real)

  datatype Wallet = Wallet(
    subscriber: string, balance: real, totalDeposited: real, totalWithdrawn: real, totalDrawn: real,
    transactions: seq<WalletTx>)

  /** The wallet invariant. */
  ghost predicate Solvent(w: Wallet) {
    w.balance == w.totalDeposited - w.totalWithdrawn - w.totalDrawn && w.balance >= 0.0
  }

  /** The last of the lines numbered from zero on, all while there are no more than 128. */
  ghost predicate NumberedTo(lines: seq<WalletTx>, next: nat) {
    |lines| == (if next < 128 then next else 128) && forall i :: 0 <= i < |lines| ==> lines[i].id == next - |lines| + i
  }

  lemma NextNumbered(lines: seq<WalletTx>, line: WalletTx)
    requires NumberedTo(lines, line.id)
    ensures NumberedTo(Recent(lines + [line]), line.id + 1)
  {
  }

  class PrepaidWallets {
    var wallets: map<nat, Wallet>
    var nextWalletId: nat
    var walletTransactionIds: map<nat, nat>

    ghost predicate Valid()
      reads this
    {
      walletTransactionIds.Keys <= wallets.Keys &&
      forall id :: id in wallets ==>
        id < nextWalletId && Solvent(wallets[id]) && NumberedTo(wallets[id].transactions, NextTxId(id))
    }

    constructor ()
      ensures Valid() && wallets == map[]
    {
      wallets, nextWalletId, walletTransactionIds := map[], 0, map[];
    }

    function NextTxId(walletId: nat): nat
      reads this
    {
      if walletId in walletTransactionIds then walletTransactionIds[walletId] else 0
    }

    method CreateWallet(subscriber: string) returns (id: nat)
      requires Valid()
      modifies this
      ensures Valid() && id !in old(wallets)
      ensures wallets == old(wallets)[id := Wallet(subscriber, 0.0, 0.0, 0.0, 0.0, [])]
    {
      id := nextWalletId;
      wallets := wallets[id := Wallet(subscriber, 0.0, 0.0, 0.0, 0.0, [])];
      nextWalletId := id + 1;
    }

    /** A deposit, a withdrawal or a drawdown: done in full or refused. */
    method Move(kind: WalletTxKind, subscriber: string, walletId: nat, amount: Number) returns (done: bool)
      requires Valid()
      modifies this
      ensures Valid()
      ensures done <==> && amount.Finite? && amount.r > 0.0
                        && walletId in old(wallets) && old(wallets)[walletId].subscriber == subscriber
                        && (kind.Deposited? || old(wallets)[walletId].balance >= amount.r)
      ensures !done ==> wallets == old(wallets)
      ensures done ==> && wallets.Keys == old(wallets).Keys
                       && (forall id :: id in wallets && id != walletId ==> wallets[id] == old(wallets)[id])
                       && var w, v := old(wallets)[walletId], wallets[walletId];
                          && v.subscriber == w.subscriber
                          && v.totalDeposited == w.totalDeposited + (if kind.Deposited? then amount.r else 0.0)
                          && v.totalWithdrawn == w.totalWithdrawn + (if kind.Withdrawn? then amount.r else 0.0)
                          && v.totalDrawn == w.totalDrawn + (if kind.Drawn? then amount.r else 0.0)
                          && v.transactions == Recent(w.transactions
                                                      + [WalletTx(old(NextTxId(walletId)), kind, amount.r, v.balance)])
                          && walletTransactionIds == old(walletTransactionIds)[walletId := old(NextTxId(walletId)) + 1]
      ensures nextWalletId == old(nextWalletId)
    {
      hide Recent, NumberedTo;
      if !IsPositiveAmount(amount) || walletId !in wallets { return false; }
      var w := wallets[walletId];
      if w.subscriber != subscriber || (!kind.Deposited? && w.balance < amount.r) { return false; }
      match kind {
        case Deposited => w := w.(balance := w.balance + amount.r, totalDeposited := w.totalDeposited + amount.r);
        case Withdrawn => w := w.(balance := w.balance - amount.r, totalWithdrawn := w.totalWithdrawn + amount.r);
        case Drawn => w := w.(balance := w.balance - amount.r, totalDrawn := w.totalDrawn + amount.r);
      }
      var txId := NextTxId(walletId);
      walletTransactionIds := walletTransactionIds[walletId := txId + 1];
      NextNumbered(w.transactions, WalletTx(txId, kind, amount.r, w.balance));
      w := w.(transactions := Recent(w.transactions + [WalletTx(txId, kind, amount.r, w.balance)]));
      wallets := wallets[walletId := w];
      done := true;
    }
  }
}
