/** The Apple rail (bridge/src/rails/apple.ts), from the decoded transaction on. Every method below
    runs without an await in the source once decoding is done, so each is one atomic step. */
module AppleStore {
  import opened Common
  import opened Payments
  import opened Subscriptions

  datatype Config = Config(
    productMonthly: string, productAnnual: string, sandboxGrants: bool, sandboxGrantDays: nat, price: Price)

  /** A verified transaction. Empty ids are missing ones; token is lower-cased; revoked covers both
      a revocation date and an upgrade. */
  datatype Txn = Txn(
    productId: Option<string>, token: Option<string>, id: string, original: string, expiresMs: Option<int>,
    purchaseMs: Option<int>, purchase: bool, revoked: bool)

  datatype Notice = RefundNotice | ExpiredNotice | FailedToRenew | GrantNotice | OtherNotice

  datatype Refusal =
    | VerificationFailed | UnknownProduct | TokenMismatch | MissingIds | Revoked | Expired | OwnedByOtherDevice
    | NoSuchSubscription | NotActive | NoCurrentPeriod | CodeUnknown | BadProduct

  /** What a call answers. A hand-over names the period it handed over, if it tried to. */
  datatype Reply =
    | Refused(reason: Refusal)
    | TooSoon(availableAt: int)
    | Credited(days: nat, grant: Option<GrantResult>, test: bool)
    | Moved(days: nat, grant: Option<GrantResult>, test: bool, period: Option<int>)
    | Noticed

  function Id(original: string): SubId {
    SubId(Apple, original)
  }

  function DaysForProduct(cfg: Config, productId: Option<string>): Option<nat> {
    if productId == Some(cfg.productMonthly) then Some(30)
    else if productId == Some(cfg.productAnnual) then Some(360)
    else None
  }

  /** A purchase made after a move at movedAt seconds: a resubscribe. */
  predicate BoughtSince(txn: Txn, movedAt: int) {
    txn.purchase && (if txn.purchaseMs.Some? then txn.purchaseMs.value else 0) > movedAt * 1000
  }

  /** Which code a transaction credits, given the code its token names. */
  function OwnerOf(subs: map<SubId, Sub>, txn: Txn, purchaser: Option<string>): Option<string> {
    if txn.original == "" || Id(txn.original) !in subs then purchaser
    else
      var known := subs[Id(txn.original)];
      if known.movedAt.Some? && (!BoughtSince(txn, known.movedAt.value) || purchaser.None?) then Some(known.code)
      else if purchaser.Some? then purchaser else Some(known.code)
  }

  predicate Probes(cfg: Config, sandbox: bool) {
    sandbox && !cfg.sandboxGrants
  }

  /** Bind and grant the transaction's period. */
  function AfterSettle(cfg: Config, st: Store, code: Code, txn: Txn, sandbox: bool, days: nat): Store {
    var bound := Upserted(st.book, Id(txn.original), code, PlanFor(days));
    var book := if txn.expiresMs.Some? then ExpiryNoted(bound, Id(txn.original), txn.expiresMs.value, sandbox) else bound;
    Store(book,
          if !Probes(cfg, sandbox) then AfterGrant(st.db, cfg.price, Apple, txn.id, code, days)
          else if cfg.sandboxGrantDays == 0 then st.db
          else AfterGrant(st.db, cfg.price, Apple, "sandbox:" + txn.original, code, cfg.sandboxGrantDays))
  }

  function SettleReply(cfg: Config, st: Store, code: Code, txn: Txn, sandbox: bool, days: nat): Reply {
    if !Probes(cfg, sandbox) then Credited(days, Some(GrantAnswer(st.db, Apple, txn.id, code)), false)
    else if cfg.sandboxGrantDays == 0 then Credited(0, None, true)
    else Credited(cfg.sandboxGrantDays, Some(GrantAnswer(st.db, Apple, "sandbox:" + txn.original, code)), true)
  }

  function MoveDays(cfg: Config, now: nat, plan: Plan, expiresMs: int, sandbox: bool): nat {
    if Probes(cfg, sandbox) then cfg.sandboxGrantDays else RemainingDays(Some(expiresMs), now, plan)
  }

  function MoveKey(cfg: Config, original: string, expiresMs: int, sandbox: bool): string {
    if Probes(cfg, sandbox) then "sandbox-transfer:" + original
    else TransferKey(original, if expiresMs < 0 then 0 else expiresMs)
  }

  /** Grant the rest of the period under its own key, then rebind. */
  function AfterMove(cfg: Config, st: Store, now: nat, code: Code, original: string, plan: Plan, expiresMs: int,
                     sandbox: bool, actor: Actor): Store
  {
    var days := MoveDays(cfg, now, plan, expiresMs, sandbox);
    var book := Rebound(st.book, Id(original), code, plan, actor, days, now / 1000);
    Store(ExpiryNoted(book, Id(original), expiresMs, sandbox),
          if days == 0 then st.db
          else AfterGrant(st.db, cfg.price, Apple, MoveKey(cfg, original, expiresMs, sandbox), code, days))
  }

  function MoveReply(cfg: Config, st: Store, now: nat, code: Code, original: string, plan: Plan, expiresMs: int,
                     sandbox: bool): Reply
  {
    var days := MoveDays(cfg, now, plan, expiresMs, sandbox);
    Moved(days,
          if days == 0 then None else Some(GrantAnswer(st.db, Apple, MoveKey(cfg, original, expiresMs, sandbox), code)),
          sandbox,
          if Probes(cfg, sandbox) then None else Some(expiresMs))
  }

  function TokenMapped(st: Store, token: string, code: Code): Store {
    st.(book := st.book.(tokens := st.book.tokens[token := code]))
  }

  // ---------------------------------------------------------------- the four entry points

  /** What a call leaves behind. */
  datatype Effect = Effect(st: Store, reply: Reply)

  function Verify(cfg: Config, st: Store, code: Code, expected: string, decoded: Option<Txn>, sandbox: bool): Effect {
    if decoded.None? then Effect(st, Refused(VerificationFailed))
    else
      var txn := decoded.value;
      var days := DaysForProduct(cfg, txn.productId);
      if days.None? then Effect(st, Refused(UnknownProduct))
      else if expected == "" || txn.token != Some(expected) then Effect(st, Refused(TokenMismatch))
      else if txn.id == "" || txn.original == "" then Effect(st, Refused(MissingIds))
      else
        var owner := OwnerOf(st.book.subs, txn, Some(code)).value;
        var mapped := TokenMapped(st, expected, code);
        Effect(AfterSettle(cfg, mapped, owner, txn, sandbox, days.value),
               SettleReply(cfg, mapped, owner, txn, sandbox, days.value))
  }

  /** The code a claimed transaction's token names; a token never mapped stands for itself. */
  function Purchaser(tokens: map<string, Code>, code: Code, expected: string, token: Option<string>): Option<string> {
    if token.None? then None
    else if token.value == expected then Some(code)
    else if token.value in tokens then Some(tokens[token.value])
    else token
  }

  function Claim(cfg: Config, st: Store, now: nat, code: Code, expected: string, decoded: Option<Txn>, sandbox: bool,
                 transfer: bool): Effect
  {
    if decoded.None? then Effect(st, Refused(VerificationFailed))
    else
      var txn := decoded.value;
      var days := DaysForProduct(cfg, txn.productId);
      if days.None? then Effect(st, Refused(UnknownProduct))
      else if txn.id == "" || txn.original == "" then Effect(st, Refused(MissingIds))
      else if txn.revoked then Effect(st, Refused(Revoked))
      else if txn.expiresMs.None? || txn.expiresMs.value <= now then Effect(st, Refused(Expired))
      else
        var owner := OwnerOf(st.book.subs, txn, Purchaser(st.book.tokens, code, expected, txn.token));
        var mapped := TokenMapped(st, expected, code);
        if owner.None? || owner.value == code then
          Effect(AfterSettle(cfg, mapped, code, txn, sandbox, days.value),
                 SettleReply(cfg, mapped, code, txn, sandbox, days.value))
        else if !transfer then Effect(st, Refused(OwnedByOtherDevice))
        else
          var id := Id(txn.original);
          var at := TransferAvailableAt(if id in st.book.subs then st.book.subs[id].movedAt else None, now / 1000);
          if at.Some? then Effect(st, TooSoon(at.value))
          else
            Effect(AfterMove(cfg, mapped, now, code, txn.original, PlanFor(days.value), txn.expiresMs.value, sandbox, User),
                   MoveReply(cfg, mapped, now, code, txn.original, PlanFor(days.value), txn.expiresMs.value, sandbox))
  }

  function Rebind(cfg: Config, st: Store, now: nat, original: string, code: Code, grantRemaining: bool): Effect {
    var id := Id(original);
    if id !in st.book.subs then Effect(st, Refused(NoSuchSubscription))
    else
      var known := st.book.subs[id];
      if !grantRemaining then
        Effect(st.(book := Rebound(st.book, id, code, known.plan, Admin, 0, now / 1000)), Moved(0, None, false, None))
      else if known.status != Active then Effect(st, Refused(NotActive))
      else if known.expiresMs.None? || known.expiresMs.value <= now then Effect(st, Refused(NoCurrentPeriod))
      else
        var sandbox := known.sandbox == Some(true);
        Effect(AfterMove(cfg, st, now, code, original, known.plan, known.expiresMs.value, sandbox, Admin),
               MoveReply(cfg, st, now, code, original, known.plan, known.expiresMs.value, sandbox))
  }

  /** A server notification; sandbox is the environment the notification itself verified in. */
  function Notify(cfg: Config, st: Store, kind: Notice, decoded: Option<Txn>, sandbox: bool): Effect {
    if decoded.None? || decoded.value.original == "" then Effect(st, Refused(VerificationFailed))
    else
      var txn := decoded.value;
      var id := Id(txn.original);
      match kind
      case RefundNotice => Effect(st.(book := StatusSet(st.book, id, Refunded)), Noticed)
      case ExpiredNotice => Effect(st.(book := StatusSet(st.book, id, Canceled)), Noticed)
      case FailedToRenew => Effect(st.(book := StatusSet(st.book, id, OnHold)), Noticed)
      case OtherNotice => Effect(st, Noticed)
      case GrantNotice =>
        var tokens := st.book.tokens;
        var purchaser := if txn.token.Some? && txn.token.value != "" && txn.token.value in tokens
                         then Some(tokens[txn.token.value]) else None;
        var owner := OwnerOf(st.book.subs, txn, purchaser);
        var days := DaysForProduct(cfg, txn.productId);
        if owner.None? || owner.value == "" then Effect(st, Refused(CodeUnknown))
        else if days.None? || txn.id == "" then Effect(st, Refused(BadProduct))
        else
          Effect(AfterSettle(cfg, st, owner.value, txn, sandbox, days.value),
                 SettleReply(cfg, st, owner.value, txn, sandbox, days.value))
  }

  // ---------------------------------------------------------------- the rail itself

  class AppleRail {
    const cfg: Config
    const payments: PaymentsRepo
    const subs: SubscriptionsRepo

    constructor (cfg: Config, payments: PaymentsRepo, subs: SubscriptionsRepo)
      ensures this.cfg == cfg && this.payments == payments && this.subs == subs
    {
      this.cfg, this.payments, this.subs := cfg, payments, subs;
    }

    function Now(): Store
      reads payments, subs
    {
      Store(subs.Tables(), payments.Tables())
    }

    /** Client verification. `expected` is the UUID derived from `code`. */
    method VerifyPurchase(code: Code, expected: string, decoded: Option<Txn>, sandbox: bool) returns (reply: Reply)
      modifies payments, subs
      ensures Effect(Now(), reply) == Verify(cfg, old(Now()), code, expected, decoded, sandbox)
    {
      hide AfterSettle, SettleReply;
      if decoded.None? {
        return Refused(VerificationFailed);
      }
      var txn := decoded.value;
      var days := DaysForProduct(cfg, txn.productId);
      if days.None? {
        return Refused(UnknownProduct);
      }
      if expected == "" || txn.token != Some(expected) {
        return Refused(TokenMismatch);
      }
      if txn.id == "" || txn.original == "" {
        return Refused(MissingIds);
      }
      subs.MapAppleToken(expected, code);
      var owner := OwnerOf(subs.subs, txn, Some(code));
      reply := Settle(owner.value, txn, sandbox, days.value);
    }

    /** Client claim after a reinstall or an offer code; with `transfer`, it may move the subscription. */
    method ClaimPurchase(now: nat, code: Code, expected: string, decoded: Option<Txn>, sandbox: bool, transfer: bool)
      returns (reply: Reply)
      modifies payments, subs
      ensures Effect(Now(), reply) == Claim(cfg, old(Now()), now, code, expected, decoded, sandbox, transfer)
    {
      hide AfterSettle, SettleReply, AfterMove, MoveReply;
      if decoded.None? {
        return Refused(VerificationFailed);
      }
      var txn := decoded.value;
      var days := DaysForProduct(cfg, txn.productId);
      if days.None? {
        return Refused(UnknownProduct);
      }
      if txn.id == "" || txn.original == "" {
        return Refused(MissingIds);
      }
      if txn.revoked {
        return Refused(Revoked);
      }
      if txn.expiresMs.None? || txn.expiresMs.value <= now {
        return Refused(Expired);
      }
      var owner := OwnerOf(subs.subs, txn, Purchaser(subs.tokens, code, expected, txn.token));
      if owner.None? || owner.value == code {
        subs.MapAppleToken(expected, code);
        reply := Settle(code, txn, sandbox, days.value);
        return;
      }
      if !transfer {
        return Refused(OwnedByOtherDevice);
      }
      var id := Id(txn.original);
      var at := TransferAvailableAt(if id in subs.subs then subs.subs[id].movedAt else None, now / 1000);
      if at.Some? {
        return TooSoon(at.value);
      }
      subs.MapAppleToken(expected, code);
      reply := TransferTo(now, code, txn.original, PlanFor(days.value), txn.expiresMs.value, sandbox, User);
    }

    /** Support override: no 30-day limit, the same per-period key. */
    method AdminRebind(now: nat, original: string, code: Code, grantRemaining: bool) returns (reply: Reply)
      modifies payments, subs
      ensures Effect(Now(), reply) == Rebind(cfg, old(Now()), now, original, code, grantRemaining)
    {
      hide AfterMove, MoveReply;
      var id := Id(original);
      if id !in subs.subs {
        return Refused(NoSuchSubscription);
      }
      var known := subs.subs[id];
      if !grantRemaining {
        var _ := subs.Rebind(id, code, known.plan, Admin, 0, now / 1000);
        return Moved(0, None, false, None);
      }
      if known.status != Active {
        return Refused(NotActive);
      }
      if known.expiresMs.None? || known.expiresMs.value <= now {
        return Refused(NoCurrentPeriod);
      }
      reply := TransferTo(now, code, original, known.plan, known.expiresMs.value, known.sandbox == Some(true), Admin);
    }

    method HandleNotification(kind: Notice, decoded: Option<Txn>, sandbox: bool) returns (reply: Reply)
      modifies payments, subs
      ensures Effect(Now(), reply) == Notify(cfg, old(Now()), kind, decoded, sandbox)
    {
      hide AfterSettle, SettleReply;
      if decoded.None? || decoded.value.original == "" {
        return Refused(VerificationFailed);
      }
      var txn := decoded.value;
      var id := Id(txn.original);
      if kind.RefundNotice? {
        subs.SetStatus(id, Refunded);
        return Noticed;
      }
      if kind.ExpiredNotice? || kind.FailedToRenew? {
        subs.SetStatus(id, if kind.ExpiredNotice? then Canceled else OnHold);
        return Noticed;
      }
      if kind.OtherNotice? {
        return Noticed;
      }
      var purchaser := if txn.token.Some? && txn.token.value != "" && txn.token.value in subs.tokens
                       then Some(subs.tokens[txn.token.value]) else None;
      var owner := OwnerOf(subs.subs, txn, purchaser);
      if owner.None? || owner.value == "" {
        return Refused(CodeUnknown);
      }
      var days := DaysForProduct(cfg, txn.productId);
      if days.None? || txn.id == "" {
        return Refused(BadProduct);
      }
      reply := Settle(owner.value, txn, sandbox, days.value);
    }

    method Settle(code: Code, txn: Txn, sandbox: bool, days: nat) returns (reply: Reply)
      modifies payments, subs
      ensures Now() == AfterSettle(cfg, old(Now()), code, txn, sandbox, days)
      ensures reply == SettleReply(cfg, old(Now()), code, txn, sandbox, days)
    {
      hide AfterGrant, GrantAnswer, Upserted, ExpiryNoted;
      subs.Upsert(Id(txn.original), code, PlanFor(days));
      if txn.expiresMs.Some? {
        subs.NoteAppleExpiry(Id(txn.original), txn.expiresMs.value, sandbox);
      }
      if sandbox && !cfg.sandboxGrants {
        if cfg.sandboxGrantDays == 0 {
          return Credited(0, None, true);
        }
        var probe := RecordGrant(payments, cfg.price, Apple, "sandbox:" + txn.original, code, cfg.sandboxGrantDays);
        return Credited(cfg.sandboxGrantDays, Some(probe), true);
      }
      var result := RecordGrant(payments, cfg.price, Apple, txn.id, code, days);
      reply := Credited(days, Some(result), false);
    }

    method TransferTo(now: nat, code: Code, original: string, plan: Plan, expiresMs: int, sandbox: bool, actor: Actor)
      returns (reply: Reply)
      modifies payments, subs
      ensures Now() == AfterMove(cfg, old(Now()), now, code, original, plan, expiresMs, sandbox, actor)
      ensures reply == MoveReply(cfg, old(Now()), now, code, original, plan, expiresMs, sandbox)
    {
      hide AfterGrant, GrantAnswer, Rebound, ExpiryNoted, RemainingDays, TransferKey;
      var probe := sandbox && !cfg.sandboxGrants;
      var days := if probe then cfg.sandboxGrantDays else RemainingDays(Some(expiresMs), now, plan);
      var grant := None;
      if days > 0 {
        var result := RecordGrant(payments, cfg.price, Apple, MoveKey(cfg, original, expiresMs, sandbox), code, days);
        grant := Some(result);
      }
      var _ := subs.Rebind(Id(original), code, plan, actor, days, now / 1000);
      subs.NoteAppleExpiry(Id(original), expiresMs, sandbox);
      reply := Moved(days, grant, sandbox, if probe then None else Some(expiresMs));
    }
  }
}
