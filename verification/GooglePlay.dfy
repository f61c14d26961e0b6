/** The Google Play rail (bridge/src/rails/google.ts), given what Play answers. Its calls wait on Play
    and on the acknowledgement, so each member is one stretch between two awaits. */
module GooglePlay {
  import opened Common
  import opened PaymentCodes
  import opened Payments
  import opened Subscriptions

  datatype Config = Config(
    basePlanMonthly: string, basePlanAnnual: string, testGrants: bool, testGrantDays: nat, price: Price)

  /** subscriptionsv2.get: active covers the grace period; an empty order id is a missing one. */
  datatype Play = Play(
    active: bool, account: Option<string>, basePlan: Option<string>, orderId: string, expiryMs: Option<int>, test: bool)

  datatype Facts = Facts(days: nat, plan: Plan, orderId: string, expiryMs: Option<int>, test: bool)

  datatype Refusal =
    | InvalidPaymentCode | Inactive | AccountMismatch | AccountMissing | UnknownBasePlan | NoOrderId
    | OwnedByOtherDevice | NoSuchSubscription

  datatype Reply =
    | Refused(reason: Refusal)
    | TooSoon(availableAt: int)
    /** Bound; the grant follows once the acknowledgement returns. */
    | Bound(code: Code, facts: Facts)
    | Moved(days: nat, grant: Option<GrantResult>, test: bool, period: Option<int>)
    | Credited(days: nat, grant: Option<GrantResult>, test: bool)

  datatype Effect = Effect(st: Store, reply: Reply)

  function Id(token: string): SubId {
    SubId(Google, token)
  }

  function DaysForBasePlan(cfg: Config, basePlan: Option<string>): Option<nat> {
    if basePlan == Some(cfg.basePlanMonthly) then Some(30)
    else if basePlan == Some(cfg.basePlanAnnual) then Some(360)
    else None
  }

  datatype Period = Usable(facts: Facts) | Unusable(reason: Refusal)

  function PeriodFacts(cfg: Config, play: Play): Period {
    var days := DaysForBasePlan(cfg, play.basePlan);
    if days.None? then Unusable(UnknownBasePlan)
    else if play.orderId == "" then Unusable(NoOrderId)
    else Usable(Facts(days.value, PlanFor(days.value), play.orderId, play.expiryMs, play.test))
  }

  /** The current owner of a subscription that has been moved. */
  function MovedOwner(subs: map<SubId, Sub>, token: string): Option<Code> {
    if Id(token) in subs && subs[Id(token)].movedAt.Some? then Some(subs[Id(token)].code) else None
  }

  predicate Probes(cfg: Config, facts: Facts) {
    facts.test && !cfg.testGrants
  }

  function Named(account: Option<string>): Option<Code> {
    if account.None? || account.value == "" then None else Some(account.value)
  }

  // ---------------------------------------------------------------- the stretches

  /** verifyPurchase up to the acknowledgement; requireMatch is false on the notification path. */
  function Verify(cfg: Config, st: Store, code: string, token: string, play: Play, requireMatch: bool): Effect {
    if !ValidCode(code) then Effect(st, Refused(InvalidPaymentCode))
    else if !play.active then Effect(st, Refused(Inactive))
    else if requireMatch && play.account != Some(code) then
      Effect(st, Refused(if Named(play.account).Some? then AccountMismatch else AccountMissing))
    else
      var period := PeriodFacts(cfg, play);
      if period.Unusable? then Effect(st, Refused(period.reason))
      else
        var moved := MovedOwner(st.book.subs, token);
        var owner := if moved.Some? then moved.value else code;
        Effect(st.(book := Upserted(st.book, Id(token), owner, period.facts.plan)), Bound(owner, period.facts))
  }

  /** The grant, after the acknowledgement. */
  function Credit(cfg: Config, st: Store, code: Code, token: string, facts: Facts): Effect {
    if !Probes(cfg, facts) then
      Effect(st.(db := AfterGrant(st.db, cfg.price, Google, facts.orderId, code, facts.days)),
             Credited(facts.days, Some(GrantAnswer(st.db, Google, facts.orderId, code)), false))
    else if cfg.testGrantDays == 0 then Effect(st, Credited(0, None, true))
    else
      Effect(st.(db := AfterGrant(st.db, cfg.price, Google, "test:" + token, code, cfg.testGrantDays)),
             Credited(cfg.testGrantDays, Some(GrantAnswer(st.db, Google, "test:" + token, code)), true))
  }

  function MoveDays(cfg: Config, now: nat, facts: Facts): nat {
    if Probes(cfg, facts) then cfg.testGrantDays else RemainingDays(facts.expiryMs, now, facts.plan)
  }

  function MoveKey(cfg: Config, token: string, facts: Facts): string {
    if Probes(cfg, facts) then "test-transfer:" + token
    else TransferKey(token, if facts.expiryMs.Some? && facts.expiryMs.value >= 0 then facts.expiryMs.value else 0)
  }

  function AfterMove(cfg: Config, st: Store, now: nat, code: Code, token: string, facts: Facts, actor: Actor): Store {
    var days := MoveDays(cfg, now, facts);
    Store(Rebound(st.book, Id(token), code, facts.plan, actor, days, now / 1000),
          if days == 0 then st.db else AfterGrant(st.db, cfg.price, Google, MoveKey(cfg, token, facts), code, days))
  }

  function MoveReply(cfg: Config, st: Store, now: nat, code: Code, token: string, facts: Facts): Reply {
    var days := MoveDays(cfg, now, facts);
    Moved(days, if days == 0 then None else Some(GrantAnswer(st.db, Google, MoveKey(cfg, token, facts), code)), facts.test,
          if Probes(cfg, facts) then None else facts.expiryMs)
  }

  function Claim(cfg: Config, st: Store, now: nat, code: Code, token: string, play: Play, transfer: bool): Effect {
    if !ValidCode(code) then Effect(st, Refused(InvalidPaymentCode))
    else if !play.active then Effect(st, Refused(Inactive))
    else
      var period := PeriodFacts(cfg, play);
      if period.Unusable? then Effect(st, Refused(period.reason))
      else
        var id := Id(token);
        var owner := if id in st.book.subs then Some(st.book.subs[id].code) else Named(play.account);
        if owner.None? || owner.value == code then
          Effect(st.(book := Upserted(st.book, id, code, period.facts.plan)), Bound(code, period.facts))
        else if !transfer then Effect(st, Refused(OwnedByOtherDevice))
        else
          var at := TransferAvailableAt(if id in st.book.subs then st.book.subs[id].movedAt else None, now / 1000);
          if at.Some? then Effect(st, TooSoon(at.value))
          else Effect(AfterMove(cfg, st, now, code, token, period.facts, User), MoveReply(cfg, st, now, code, token, period.facts))
  }

  function Rebind(cfg: Config, st: Store, now: nat, token: string, code: Code, grantRemaining: bool, play: Play): Effect {
    var id := Id(token);
    if id !in st.book.subs then Effect(st, Refused(NoSuchSubscription))
    else if !grantRemaining then
      Effect(st.(book := Rebound(st.book, id, code, st.book.subs[id].plan, Admin, 0, now / 1000)), Moved(0, None, false, None))
    else if !play.active then Effect(st, Refused(Inactive))
    else
      var period := PeriodFacts(cfg, play);
      if period.Unusable? then Effect(st, Refused(period.reason))
      else Effect(AfterMove(cfg, st, now, code, token, period.facts, Admin), MoveReply(cfg, st, now, code, token, period.facts))
  }

  /** The code a notification resolves before it asks Play again: the binding first. */
  function NoticeCode(st: Store, token: string, account: Option<string>): Option<Code> {
    if Id(token) in st.book.subs then Some(st.book.subs[Id(token)].code) else Named(account)
  }

  // ---------------------------------------------------------------- the rail itself

  class GoogleRail {
    const cfg: Config
    const payments: PaymentsRepo
    const subs: SubscriptionsRepo

    constructor (cfg: Config, payments: PaymentsRepo, subs: SubscriptionsRepo)
      ensures this.cfg == cfg && this.payments == payments && this.subs == subs
    {
      this.cfg, this.payments, this.subs := cfg, payments, subs;
    }

    function Now(): Store
      reads payments, subs
    {
      Store(subs.Tables(), payments.Tables())
    }

    method VerifyPurchase(code: string, token: string, play: Play, requireMatch: bool) returns (reply: Reply)
      modifies subs
      ensures Effect(Now(), reply) == Verify(cfg, old(Now()), code, token, play, requireMatch)
    {
      hide ValidCode, Upserted;
      if !ValidCode(code) {
        return Refused(InvalidPaymentCode);
      }
      ValidIsNotEmpty(code);
      if !play.active {
        return Refused(Inactive);
      }
      if requireMatch && play.account != Some(code) {
        return Refused(if Named(play.account).Some? then AccountMismatch else AccountMissing);
      }
      var period := PeriodFacts(cfg, play);
      if period.Unusable? {
        return Refused(period.reason);
      }
      var moved := MovedOwner(subs.subs, token);
      var owner := if moved.Some? then moved.value else code;
      subs.Upsert(Id(token), owner, period.facts.plan);
      reply := Bound(owner, period.facts);
    }

    method ClaimPurchase(now: nat, code: Code, token: string, play: Play, transfer: bool) returns (reply: Reply)
      modifies payments, subs
      ensures Effect(Now(), reply) == Claim(cfg, old(Now()), now, code, token, play, transfer)
    {
      hide ValidCode, Upserted, AfterMove, MoveReply;
      if !ValidCode(code) {
        return Refused(InvalidPaymentCode);
      }
      if !play.active {
        return Refused(Inactive);
      }
      var period := PeriodFacts(cfg, play);
      if period.Unusable? {
        return Refused(period.reason);
      }
      var id := Id(token);
      var owner := if id in subs.subs then Some(subs.subs[id].code) else Named(play.account);
      if owner.None? || owner.value == code {
        subs.Upsert(id, code, period.facts.plan);
        return Bound(code, period.facts);
      }
      if !transfer {
        return Refused(OwnedByOtherDevice);
      }
      var at := TransferAvailableAt(if id in subs.subs then subs.subs[id].movedAt else None, now / 1000);
      if at.Some? {
        return TooSoon(at.value);
      }
      reply := TransferTo(now, code, token, period.facts, User);
    }

    method AdminRebind(now: nat, token: string, code: Code, grantRemaining: bool, play: Play) returns (reply: Reply)
      modifies payments, subs
      ensures Effect(Now(), reply) == Rebind(cfg, old(Now()), now, token, code, grantRemaining, play)
    {
      hide AfterMove, MoveReply, Rebound;
      var id := Id(token);
      if id !in subs.subs {
        return Refused(NoSuchSubscription);
      }
      if !grantRemaining {
        var _ := subs.Rebind(id, code, subs.subs[id].plan, Admin, 0, now / 1000);
        return Moved(0, None, false, None);
      }
      if !play.active {
        return Refused(Inactive);
      }
      var period := PeriodFacts(cfg, play);
      if period.Unusable? {
        return Refused(period.reason);
      }
      reply := TransferTo(now, code, token, period.facts, Admin);
    }

    method TransferTo(now: nat, code: Code, token: string, facts: Facts, actor: Actor) returns (reply: Reply)
      modifies payments, subs
      ensures Now() == AfterMove(cfg, old(Now()), now, code, token, facts, actor)
      ensures reply == MoveReply(cfg, old(Now()), now, code, token, facts)
    {
      hide AfterGrant, GrantAnswer, Rebound, RemainingDays, TransferKey;
      var probe := facts.test && !cfg.testGrants;
      var days := if probe then cfg.testGrantDays else RemainingDays(facts.expiryMs, now, facts.plan);
      var grant := None;
      if days > 0 {
        var result := RecordGrant(payments, cfg.price, Google, MoveKey(cfg, token, facts), code, days);
        grant := Some(result);
      }
      var _ := subs.Rebind(Id(token), code, facts.plan, actor, days, now / 1000);
      reply := Moved(days, grant, facts.test, if probe then None else facts.expiryMs);
    }

    /** The second half of settle. */
    method FinishSettle(code: Code, token: string, facts: Facts) returns (reply: Reply)
      modifies payments
      ensures Effect(Now(), reply) == Credit(cfg, old(Now()), code, token, facts)
    {
      hide AfterGrant, GrantAnswer;
      if facts.test && !cfg.testGrants {
        if cfg.testGrantDays == 0 {
          return Credited(0, None, true);
        }
        var probe := RecordGrant(payments, cfg.price, Google, "test:" + token, code, cfg.testGrantDays);
        return Credited(cfg.testGrantDays, Some(probe), true);
      }
      var result := RecordGrant(payments, cfg.price, Google, facts.orderId, code, facts.days);
      reply := Credited(facts.days, Some(result), false);
    }
  }
}
