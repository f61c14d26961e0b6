/** Store subscriptions and moving them between payment codes: the tables of
    bridge/src/db/subscriptions.ts, the walls of bridge/src/transfers.ts and the funnel of
    bridge/src/grants.ts. */
module Subscriptions {
  import opened Common
  import opened Payments
  import opened GrantRules
  import opened PaymentCodes
  import opened Arithmetic
  import Text

  const TRANSFER_INTERVAL_S: int := 30 * 86400
  const DAY_MS: int := 86400000

  datatype Plan = Monthly | Annual

  datatype Standing = Active | Canceled | Refunded | OnHold

  datatype Actor = User | Admin

  datatype SubId = SubId(rail: Rail, external: string)

  /** A bound code is never empty: every route validates the code it is given. */
  type Code = c: string | c != "" witness "1"

  /** A row of `subscriptions`; movedAt in seconds, expiresMs and sandbox filled on Apple only. */
  datatype Sub = Sub(
    code: Code, plan: Plan, status: Standing, movedAt: Option<int>, expiresMs: Option<int>, sandbox: Option<bool>)

  /** A row of `subscription_transfers`. */
  datatype Move = Move(id: SubId, source: Option<Code>, target: Code, actor: Actor, days: nat, at: int)

  datatype Book = Book(subs: map<SubId, Sub>, tokens: map<string, Code>, moves: seq<Move>)

  /** Everything the rails read and write. */
  datatype Store = Store(book: Book, db: Db)

  type Price = p: int | p > 0 witness 1

  // ---------------------------------------------------------------- transfers.ts

  function PlanDays(plan: Plan): nat {
    match plan case Monthly => 30 case Annual => 360
  }

  function PlanFor(days: nat): Plan {
    if days == 360 then Annual else Monthly
  }

  /** Days left in a billing period; None is a period end the store did not report. */
  function RemainingDays(periodEndMs: Option<int>, nowMs: int, plan: Plan): nat {
    if periodEndMs.None? || periodEndMs.value <= nowMs then 0
    else Min(PlanDays(plan), Max(1, (periodEndMs.value - nowMs + DAY_MS - 1) / DAY_MS))
  }

  /** Zero exactly once the period is over; otherwise the fewest whole days that cover what is left,
      or the whole plan if that is less. */
  lemma RemainingDaysCover(end: int, now: int, plan: Plan)
    ensures var d := RemainingDays(Some(end), now, plan);
            && d <= PlanDays(plan) && (d == 0 <==> end <= now)
            && (end > now ==> d == PlanDays(plan) || end - now <= d * DAY_MS)
            && (end > now ==> (d - 1) * DAY_MS < end - now)
  {
    if end > now {
      var x := end - now + DAY_MS - 1;
      var c := x / DAY_MS;
      FloorIs(x, DAY_MS, 1);
      FloorIs(x, DAY_MS, c);
      FloorIs(x, DAY_MS, c + 1);
    }
  }

  function TransferKey(subscription: string, periodEndMs: nat): string {
    "transfer:" + subscription + ":" + Text.ToDigits(periodEndMs, 10)
  }

  /** Different periods, or different subscriptions, never share a transfer key. */
  lemma TransferKeyInjective(a: string, m: nat, b: string, n: nat)
    requires TransferKey(a, m) == TransferKey(b, n)
    ensures a == b && m == n
  {
    var x, y := Text.ToDigits(m, 10), Text.ToDigits(n, 10);
    NoColon(m);
    NoColon(n);
    AfterLastColon("transfer:" + a, x, "transfer:" + b, y);
    assert ("transfer:" + a)[9..] == a && ("transfer:" + b)[9..] == b;
    Text.DigitsValue(m, 10);
    Text.DigitsValue(n, 10);
  }

  lemma NoColon(n: nat)
    ensures ':' !in Text.ToDigits(n, 10)
  {
    Text.DigitsShape(n, 10);
  }

  lemma AfterLastColon(a: string, x: string, b: string, y: string)
    requires ':' !in x && ':' !in y && a + ":" + x == b + ":" + y
    ensures a == b && x == y
  {
    var s := a + ":" + x;
    assert s[|a|] == ':' && s[|b|] == ':';
    assert forall i :: |a| < i < |s| ==> s[i] == x[i - |a| - 1] && s[i] != ':';
    assert forall i :: |b| < i < |s| ==> s[i] == y[i - |b| - 1] && s[i] != ':';
    assert s[..|a|] == a && s[..|b|] == b && s[|a| + 1..] == x && s[|b| + 1..] == y;
  }

  /** None when a subscription last moved at movedAt may move now, else the moment it may. */
  function TransferAvailableAt(movedAt: Option<int>, nowS: int): Option<int> {
    if movedAt.None? then None
    else if movedAt.value + TRANSFER_INTERVAL_S > nowS then Some(movedAt.value + TRANSFER_INTERVAL_S)
    else None
  }

  // ---------------------------------------------------------------- what each statement does

  function Upserted(book: Book, id: SubId, code: Code, plan: Plan): Book {
    book.(subs := book.subs[id :=
      if id in book.subs then book.subs[id].(code := code, plan := plan, status := Active)
      else Sub(code, plan, Active, None, None, None)])
  }

  function Rebound(book: Book, id: SubId, code: Code, plan: Plan, actor: Actor, days: nat, nowS: int): Book {
    var previous := if id in book.subs then Some(book.subs[id].code) else None;
    book.(
      subs := book.subs[id :=
        if id in book.subs then book.subs[id].(code := code, plan := plan, movedAt := Some(nowS))
        else Sub(code, plan, Active, Some(nowS), None, None)],
      moves := book.moves + [Move(id, previous, code, actor, days, nowS)])
  }

  function ExpiryNoted(book: Book, id: SubId, expiresMs: int, sandbox: bool): Book {
    if id in book.subs && (book.subs[id].expiresMs.None? || book.subs[id].expiresMs.value <= expiresMs)
    then book.(subs := book.subs[id := book.subs[id].(expiresMs := Some(expiresMs), sandbox := Some(sandbox))])
    else book
  }

  function StatusSet(book: Book, id: SubId, status: Standing): Book {
    if id in book.subs then book.(subs := book.subs[id := book.subs[id].(status := status)]) else book
  }

  class SubscriptionsRepo {
    var subs: map<SubId, Sub>
    var tokens: map<string, Code>
    var moves: seq<Move>

    constructor ()
      ensures Tables() == Book(map[], map[], [])
    {
      subs, tokens, moves := map[], map[], [];
    }

    function Tables(): Book
      reads this
    {
      Book(subs, tokens, moves)
    }

    method Upsert(id: SubId, code: Code, plan: Plan)
      modifies this
      ensures Tables() == Upserted(old(Tables()), id, code, plan)
      ensures id in subs && subs[id].code == code && subs[id].plan == plan && subs[id].status == Active
      ensures id in old(subs) ==> && subs[id].movedAt == old(subs)[id].movedAt && subs[id].expiresMs == old(subs)[id].expiresMs
                                  && subs[id].sandbox == old(subs)[id].sandbox
      ensures forall k :: k != id ==> (k in subs <==> k in old(subs)) && (k in subs ==> subs[k] == old(subs)[k])
      ensures tokens == old(tokens) && moves == old(moves)
    {
      if id in subs {
        subs := subs[id := subs[id].(code := code, plan := plan, status := Active)];
      } else {
        subs := subs[id := Sub(code, plan, Active, None, None, None)];
      }
    }

    /** One database transaction: the binding, the 30-day clock and the audit row. */
    method Rebind(id: SubId, code: Code, plan: Plan, actor: Actor, days: nat, nowS: int) returns (previous: Option<Code>)
      modifies this
      ensures Tables() == Rebound(old(Tables()), id, code, plan, actor, days, nowS)
      ensures previous == if id in old(subs) then Some(old(subs)[id].code) else None
    {
      previous := None;
      if id in subs {
        previous := Some(subs[id].code);
        subs := subs[id := subs[id].(code := code, plan := plan, movedAt := Some(nowS))];
      } else {
        subs := subs[id := Sub(code, plan, Active, Some(nowS), None, None)];
      }
      moves := moves + [Move(id, previous, code, actor, days, nowS)];
    }

    /** Only ever forward: an old transaction must not rewind the period. */
    method NoteAppleExpiry(id: SubId, expiresMs: int, sandbox: bool)
      modifies this
      ensures Tables() == ExpiryNoted(old(Tables()), id, expiresMs, sandbox)
      ensures id in old(subs) ==> id in subs && subs[id].expiresMs.Some? && subs[id].expiresMs.value >= expiresMs
      ensures id in old(subs) && old(subs)[id].expiresMs.Some? ==> subs[id].expiresMs.value >= old(subs)[id].expiresMs.value
    {
      if id in subs && (subs[id].expiresMs.None? || subs[id].expiresMs.value <= expiresMs) {
        subs := subs[id := subs[id].(expiresMs := Some(expiresMs), sandbox := Some(sandbox))];
      }
    }

    method SetStatus(id: SubId, status: Standing)
      modifies this
      ensures Tables() == StatusSet(old(Tables()), id, status)
      ensures subs.Keys == old(subs).Keys && (id in subs ==> subs[id].status == status)
      ensures forall k :: k in subs ==> subs[k].code == old(subs)[k].code && subs[k].movedAt == old(subs)[k].movedAt
    {
      if id in subs {
        subs := subs[id := subs[id].(status := status)];
      }
    }

    method MapAppleToken(token: string, code: Code)
      modifies this
      ensures Tables() == old(Tables()).(tokens := old(tokens)[token := code])
    {
      tokens := tokens[token := code];
    }
  }

  // ---------------------------------------------------------------- grants.ts

  datatype GrantResult = Queued | Duplicate | InvalidCode

  function Payment(price: Price, rail: Rail, key: string, code: string, days: nat): NewPayment {
    NewPayment(rail, key, code, days, ZatsForDays(price, days))
  }

  function AfterGrant(db: Db, price: Price, rail: Rail, key: string, code: string, days: nat): Db {
    if ValidCode(code) then Inserted(db, Payment(price, rail, key, code, days)) else db
  }

  function GrantAnswer(db: Db, rail: Rail, key: string, code: string): GrantResult {
    if !ValidCode(code) then InvalidCode else if Recorded(db, rail, key) then Duplicate else Queued
  }

  method RecordGrant(payments: PaymentsRepo, price: Price, rail: Rail, key: string, code: string, days: nat)
    returns (r: GrantResult)
    modifies payments
    ensures payments.Tables() == AfterGrant(old(payments.Tables()), price, rail, key, code, days)
    ensures r == GrantAnswer(old(payments.Tables()), rail, key, code)
  {
    if !ValidCode(code) {
      return InvalidCode;
    }
    var row := payments.InsertIdempotent(NewPayment(rail, key, code, days, ZatsForDays(price, days)));
    r := if row.None? then Duplicate else Queued;
  }

  /** A grant is queued at most once per key, whatever happens in between. */
  lemma GrantQueuesOnce(db: Db, price: Price, rail: Rail, key: string, code: string, days: nat)
    ensures GrantAnswer(db, rail, key, code) == Queued ==>
              var after := AfterGrant(db, price, rail, key, code, days);
              && !Recorded(db, rail, key) && Recorded(after, rail, key)
              && db.nextId in after.payments
              && after.payments[db.nextId].code == code && after.payments[db.nextId].days == days
    ensures GrantAnswer(db, rail, key, code) != Queued ==> AfterGrant(db, price, rail, key, code, days) == db
  {
    hide ValidCode, ZatsForDays;
    var after := AfterGrant(db, price, rail, key, code, days);
    if GrantAnswer(db, rail, key, code) == Queued {
      assert db.nextId in after.payments && after.payments[db.nextId].rail == rail && after.payments[db.nextId].eventKey == key;
    }
  }

  /** No (rail, event key) ever recorded is lost. Ids are never reused, so nothing is overwritten. */
  ghost predicate KeysKept(before: Db, after: Db) {
    forall rail, key :: Recorded(before, rail, key) ==> Recorded(after, rail, key)
  }

  /** AUTOINCREMENT: ids are handed out in order. */
  predicate IdsBelow(db: Db) {
    forall id :: id in db.payments ==> id < db.nextId
  }

  lemma GrantKeepsKeys(db: Db, price: Price, rail: Rail, key: string, code: string, days: nat)
    requires IdsBelow(db)
    ensures IdsBelow(AfterGrant(db, price, rail, key, code, days))
    ensures KeysKept(db, AfterGrant(db, price, rail, key, code, days))
  {
    hide ValidCode, ZatsForDays;
    var after := AfterGrant(db, price, rail, key, code, days);
    forall r, k | Recorded(db, r, k) ensures Recorded(after, r, k) {
      var id :| id in db.payments && db.payments[id].rail == r && db.payments[id].eventKey == k;
      assert id in after.payments && after.payments[id].rail == r && after.payments[id].eventKey == k;
    }
  }
}
