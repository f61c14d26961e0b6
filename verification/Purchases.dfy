/** What each call of the two store rails answers, binds and queues, told from the purchase. */
module Purchases {
  import opened Common
  import opened GrantRules
  import opened PaymentCodes
  import opened Payments
  import opened Subscriptions
  import A = AppleStore
  import G = GooglePlay

  /** A grant of `days` to the code under that key: one new row, due at once, sized at the price; nothing for
      a key already recorded or a code that is not one. */
  ghost predicate Granted(before: Db, after: Db, answer: GrantResult, price: Price, rail: Rail, key: string, code: string, days: nat) {
    && (answer == InvalidCode <==> !ValidCode(code))
    && (answer == Duplicate <==> ValidCode(code) && Recorded(before, rail, key))
    && after == if answer != Queued then before
                else Db(before.payments[before.nextId := Row(rail, key, code, days, ZatsForDays(price, days), Pending, None, None, None, 0, 0)],
                        before.spent, before.nextId + 1)
  }

  /** The subscription is the code's, active, under that plan; its 30-day clock and every other one's row,
      the tokens but `token`, and the audit log are as before. */
  ghost predicate Bound(before: Book, after: Book, id: SubId, code: Code, plan: Plan) {
    && id in after.subs && after.subs[id].code == code && after.subs[id].plan == plan && after.subs[id].status == Active
    && after.subs[id].movedAt == (if id in before.subs then before.subs[id].movedAt else None)
    && (forall k :: k != id ==> (k in after.subs <==> k in before.subs) && (k in after.subs ==> after.subs[k] == before.subs[k]))
    && after.moves == before.moves
  }

  lemma GrantedIs(db: Db, price: Price, rail: Rail, key: string, code: string, days: nat)
    ensures Granted(db, AfterGrant(db, price, rail, key, code, days), GrantAnswer(db, rail, key, code), price, rail, key, code, days)
  {
    hide ValidCode, ZatsForDays, Recorded;
  }

  // ---------------------------------------------------------------- Apple

  ghost predicate AppleProduct(cfg: A.Config, productId: Option<string>, days: nat, plan: Plan) {
    || (productId == Some(cfg.productMonthly) && days == 30 && plan == Monthly)
    || (productId == Some(cfg.productAnnual) && cfg.productAnnual != cfg.productMonthly && days == 360 && plan == Annual)
  }

  lemma ProductIs(cfg: A.Config, productId: Option<string>)
    ensures A.DaysForProduct(cfg, productId).Some? <==> productId == Some(cfg.productMonthly) || productId == Some(cfg.productAnnual)
    ensures forall days: nat, plan :: AppleProduct(cfg, productId, days, plan)
              <==> A.DaysForProduct(cfg, productId) == Some(days) && plan == PlanFor(days)
    ensures A.DaysForProduct(cfg, productId).Some? ==> PlanDays(PlanFor(A.DaysForProduct(cfg, productId).value)) == A.DaysForProduct(cfg, productId).value
  {
  }

  /** A purchase credited to a code: its product's days under the transaction's id, and the subscription
      bound under its product's plan. A sandbox purchase without sandbox grants gets the probe, under one
      key a subscription, or nothing. */
  ghost predicate AppleCredited(cfg: A.Config, st: Store, e: A.Effect, txn: A.Txn, sandbox: bool, code: Code) {
    exists days: nat, plan :: AppleProduct(cfg, txn.productId, days, plan)
      && Bound(st.book, e.st.book, SubId(Apple, txn.original), code, plan)
      && (txn.expiresMs.Some? ==> Noted(e.st.book, SubId(Apple, txn.original), txn.expiresMs.value))
      && AppleAnswered(cfg, st.db, e, txn, sandbox, code, days)
  }

  ghost predicate Noted(book: Book, id: SubId, expiresMs: int) {
    id in book.subs && book.subs[id].expiresMs.Some? && book.subs[id].expiresMs.value >= expiresMs
  }

  ghost predicate AppleAnswered(cfg: A.Config, before: Db, e: A.Effect, txn: A.Txn, sandbox: bool, code: Code, days: nat) {
    if sandbox && !cfg.sandboxGrants then
      if cfg.sandboxGrantDays == 0 then e.reply == A.Credited(0, None, true) && e.st.db == before
      else
        && e.reply.Credited? && e.reply.days == cfg.sandboxGrantDays && e.reply.test && e.reply.grant.Some?
        && Granted(before, e.st.db, e.reply.grant.value, cfg.price, Apple, "sandbox:" + txn.original, code, cfg.sandboxGrantDays)
    else
      && e.reply.Credited? && e.reply.days == days && !e.reply.test && e.reply.grant.Some?
      && Granted(before, e.st.db, e.reply.grant.value, cfg.price, Apple, txn.id, code, days)
  }

  lemma SettleCredits(cfg: A.Config, st: Store, mapped: Store, code: Code, txn: A.Txn, sandbox: bool, days: nat)
    requires A.DaysForProduct(cfg, txn.productId) == Some(days)
    requires mapped.db == st.db && mapped.book.subs == st.book.subs && mapped.book.moves == st.book.moves
    ensures AppleCredited(cfg, st, A.Effect(A.AfterSettle(cfg, mapped, code, txn, sandbox, days),
                                            A.SettleReply(cfg, mapped, code, txn, sandbox, days)), txn, sandbox, code)
    ensures A.AfterSettle(cfg, mapped, code, txn, sandbox, days).book.tokens == mapped.book.tokens
  {
    hide Bound, Noted, AppleAnswered, A.DaysForProduct, AppleProduct, A.AfterSettle, A.SettleReply;
    ProductIs(cfg, txn.productId);
    SettleBindsAndNotes(cfg, st, mapped, code, txn, sandbox, days);
    SettleAnswers(cfg, mapped, code, txn, sandbox, days);
    assert AppleProduct(cfg, txn.productId, days, PlanFor(days));
  }

  lemma SettleBindsAndNotes(cfg: A.Config, st: Store, mapped: Store, code: Code, txn: A.Txn, sandbox: bool, days: nat)
    requires mapped.book.subs == st.book.subs && mapped.book.moves == st.book.moves
    ensures var after, id := A.AfterSettle(cfg, mapped, code, txn, sandbox, days).book, SubId(Apple, txn.original);
            && Bound(st.book, after, id, code, PlanFor(days)) && after.tokens == mapped.book.tokens
            && (txn.expiresMs.Some? ==> Noted(after, id, txn.expiresMs.value))
  {
    hide AfterGrant, A.Probes, PlanFor;
  }

  lemma SettleAnswers(cfg: A.Config, mapped: Store, code: Code, txn: A.Txn, sandbox: bool, days: nat)
    ensures AppleAnswered(cfg, mapped.db, A.Effect(A.AfterSettle(cfg, mapped, code, txn, sandbox, days),
                                                   A.SettleReply(cfg, mapped, code, txn, sandbox, days)), txn, sandbox, code, days)
  {
    hide Granted, AfterGrant, GrantAnswer, Upserted, ExpiryNoted;
    GrantedIs(mapped.db, cfg.price, Apple, txn.id, code, days);
    GrantedIs(mapped.db, cfg.price, Apple, "sandbox:" + txn.original, code, cfg.sandboxGrantDays);
  }

  /** The owner of a subscription that was moved and not bought again since is the code it is bound to;
      else the code its token names, if any; else the code it is bound to, if any. */
  ghost function Owner(book: Book, txn: A.Txn, named: Option<string>): Option<string> {
    var id := SubId(Apple, txn.original);
    var known := if txn.original != "" && id in book.subs then Some(book.subs[id]) else None;
    var moved := known.Some? && known.value.movedAt.Some?;
    var again := moved && txn.purchase && (if txn.purchaseMs.Some? then txn.purchaseMs.value else 0) > known.value.movedAt.value * 1000;
    if moved && !again then Some(known.value.code)
    else if named.Some? then named
    else if known.Some? then Some(known.value.code) else None
  }

  lemma OwnerIs(book: Book, txn: A.Txn, named: Option<string>)
    ensures A.OwnerOf(book.subs, txn, named) == Owner(book, txn, named)
  {
  }

  /** POST verify: credited exactly for a known product whose token is the caller's, with both ids. */
  lemma AppleVerifyLaw(cfg: A.Config, st: Store, code: Code, expected: string, decoded: Option<A.Txn>, sandbox: bool)
    ensures var e := A.Verify(cfg, st, code, expected, decoded, sandbox);
            && (e.reply.Credited? <==>
                  && decoded.Some? && (decoded.value.productId == Some(cfg.productMonthly) || decoded.value.productId == Some(cfg.productAnnual))
                  && expected != "" && decoded.value.token == Some(expected) && decoded.value.id != "" && decoded.value.original != "")
            && (!e.reply.Credited? ==> e.reply.Refused? && e.st == st)
            && (e.reply.Credited? ==>
                  var owner := Owner(st.book, decoded.value, Some(code));
                  && owner.Some? && owner.value != "" && AppleCredited(cfg, st, e, decoded.value, sandbox, owner.value)
                  && e.st.book.tokens == st.book.tokens[expected := code])
  {
    hide AppleCredited, A.AfterSettle, A.SettleReply, A.DaysForProduct;
    if decoded.Some? {
      var txn := decoded.value;
      ProductIs(cfg, txn.productId);
      OwnerIs(st.book, txn, Some(code));
      if A.DaysForProduct(cfg, txn.productId).Some? {
        var days := A.DaysForProduct(cfg, txn.productId).value;
        SettleCredits(cfg, st, A.TokenMapped(st, expected, code), A.OwnerOf(st.book.subs, txn, Some(code)).value, txn, sandbox, days);
        SettleIsCredited(cfg, A.TokenMapped(st, expected, code), A.OwnerOf(st.book.subs, txn, Some(code)).value, txn, sandbox, days);
      }
    }
  }

  lemma SettleIsCredited(cfg: A.Config, st: Store, code: Code, txn: A.Txn, sandbox: bool, days: nat)
    ensures A.SettleReply(cfg, st, code, txn, sandbox, days).Credited?
  {
    hide GrantAnswer;
  }

  /** A move to `code`: bound and stamped at `now`, one line in the audit log, every other row as before. */
  ghost predicate MovedTo(before: Book, after: Book, id: SubId, code: Code, plan: Plan, actor: Actor, days: nat, nowS: int) {
    && id in after.subs && after.subs[id].code == code && after.subs[id].plan == plan && after.subs[id].movedAt == Some(nowS)
    && (id in before.subs ==> after.subs[id].status == before.subs[id].status)
    && (forall k :: k != id ==> (k in after.subs <==> k in before.subs) && (k in after.subs ==> after.subs[k] == before.subs[k]))
    && after.moves == before.moves + [Move(id, if id in before.subs then Some(before.subs[id].code) else None, code, actor, days, nowS)]
  }

  /** With it the rest of the period, in days rounded up but no more than the plan's, under that period's key;
      a sandbox period without sandbox grants hands over the probe, under one key a subscription. Nothing is
      queued for no days. */
  ghost predicate HandedOver(before: Db, after: Db, reply: Option<GrantResult>, replyDays: nat, price: Price, rail: Rail, code: Code,
                             days: nat, key: string)
  {
    && replyDays == days
    && if days == 0 then after == before && reply == None
       else reply.Some? && Granted(before, after, reply.value, price, rail, key, code, days)
  }

  /** The whole days left of a period, rounded up, no more than the plan's; none of an ended one. */
  ghost predicate DaysLeft(days: nat, endMs: Option<int>, now: nat, planDays: nat) {
    if endMs.None? || endMs.value <= now then days == 0
    else 1 <= days <= planDays && (days - 1) * 86_400_000 < endMs.value - now && (days == planDays || endMs.value - now <= days * 86_400_000)
  }

  ghost predicate PlanLasts(plan: Plan, days: nat) {
    (plan == Monthly && days == 30) || (plan == Annual && days == 360)
  }

  lemma DaysLeftIs(endMs: Option<int>, now: nat, plan: Plan, planDays: nat)
    requires PlanLasts(plan, planDays)
    ensures DaysLeft(RemainingDays(endMs, now, plan), endMs, now, planDays)
  {
    if endMs.Some? { RemainingDaysCover(endMs.value, now, plan); }
    hide RemainingDays;
  }

  ghost predicate AppleMoved(cfg: A.Config, st: Store, e: A.Effect, now: nat, code: Code, original: string, plan: Plan, expiresMs: int,
                             sandbox: bool, actor: Actor)
  {
    exists days: nat, planDays: nat :: PlanLasts(plan, planDays)
      && (if sandbox && !cfg.sandboxGrants then days == cfg.sandboxGrantDays else DaysLeft(days, Some(expiresMs), now, planDays))
      && MovedTo(st.book, e.st.book, SubId(Apple, original), code, plan, actor, days, now / 1000)
      && Noted(e.st.book, SubId(Apple, original), expiresMs)
      && e.reply.Moved? && e.reply.test == sandbox && e.reply.period == (if sandbox && !cfg.sandboxGrants then None else Some(expiresMs))
      && HandedOver(st.db, e.st.db, e.reply.grant, e.reply.days, cfg.price, Apple, code, days,
                    if sandbox && !cfg.sandboxGrants then "sandbox-transfer:" + original
                    else TransferKey(original, if expiresMs < 0 then 0 else expiresMs))
  }

  lemma MoveIsOne(book: Book, id: SubId, code: Code, plan: Plan, actor: Actor, days: nat, nowS: int)
    ensures MovedTo(book, Rebound(book, id, code, plan, actor, days, nowS), id, code, plan, actor, days, nowS)
    ensures Rebound(book, id, code, plan, actor, days, nowS).tokens == book.tokens
  {
  }

  lemma NotingIsMoved(book: Book, moved: Book, id: SubId, code: Code, plan: Plan, actor: Actor, days: nat, nowS: int, expiresMs: int, sandbox: bool)
    requires MovedTo(book, moved, id, code, plan, actor, days, nowS)
    ensures MovedTo(book, ExpiryNoted(moved, id, expiresMs, sandbox), id, code, plan, actor, days, nowS)
    ensures Noted(ExpiryNoted(moved, id, expiresMs, sandbox), id, expiresMs)
  {
  }

  lemma HandOverIs(db: Db, price: Price, rail: Rail, key: string, code: Code, days: nat)
    ensures HandedOver(db, if days == 0 then db else AfterGrant(db, price, rail, key, code, days),
                       if days == 0 then None else Some(GrantAnswer(db, rail, key, code)), days, price, rail, code, days, key)
  {
    hide Granted, AfterGrant, GrantAnswer;
    GrantedIs(db, price, rail, key, code, days);
  }

  lemma MoveHandsOver(cfg: A.Config, st: Store, mapped: Store, now: nat, code: Code, original: string, plan: Plan, expiresMs: int,
                      sandbox: bool, actor: Actor)
    requires mapped.db == st.db && mapped.book.subs == st.book.subs && mapped.book.moves == st.book.moves
    ensures AppleMoved(cfg, st, A.Effect(A.AfterMove(cfg, mapped, now, code, original, plan, expiresMs, sandbox, actor),
                                         A.MoveReply(cfg, mapped, now, code, original, plan, expiresMs, sandbox)),
                       now, code, original, plan, expiresMs, sandbox, actor)
    ensures A.MoveReply(cfg, mapped, now, code, original, plan, expiresMs, sandbox).Moved?
  {
    var planDays := if plan == Monthly then 30 else 360;
    var days := A.MoveDays(cfg, now, plan, expiresMs, sandbox);
    var id := SubId(Apple, original);
    DaysLeftIs(Some(expiresMs), now, plan, planDays);
    var moved := Rebound(mapped.book, id, code, plan, actor, days, now / 1000);
    MoveIsOne(mapped.book, id, code, plan, actor, days, now / 1000);
    SameBefore(mapped.book, st.book, moved, id, code, plan, actor, days, now / 1000);
    NotingIsMoved(st.book, moved, id, code, plan, actor, days, now / 1000, expiresMs, sandbox);
    HandOverIs(st.db, cfg.price, Apple, A.MoveKey(cfg, original, expiresMs, sandbox), code, days);
    hide HandedOver, DaysLeft, MovedTo, Noted, Rebound, ExpiryNoted, AfterGrant, GrantAnswer, RemainingDays, TransferKey;
    assert PlanLasts(plan, planDays);
  }

  lemma SameBefore(a: Book, b: Book, after: Book, id: SubId, code: Code, plan: Plan, actor: Actor, days: nat, nowS: int)
    requires a.subs == b.subs && a.moves == b.moves && MovedTo(a, after, id, code, plan, actor, days, nowS)
    ensures MovedTo(b, after, id, code, plan, actor, days, nowS)
  {
  }

  /** The code a claimed transaction's token names: the caller's own token the caller, a mapped one the code
      it was mapped to, any other a stranger. */
  ghost function NamedOnClaim(book: Book, code: Code, expected: string, token: Option<string>): Option<string> {
    if token.None? then None
    else if token == Some(expected) then Some(code)
    else if token.value in book.tokens then Some(book.tokens[token.value]) else Some(token.value)
  }

  predicate KnownProduct(cfg: A.Config, productId: Option<string>) {
    productId == Some(cfg.productMonthly) || productId == Some(cfg.productAnnual)
  }

  /** A claim is heard exactly for a verified, unrevoked, running purchase of a known product. */
  predicate Claimable(cfg: A.Config, decoded: Option<A.Txn>, now: nat) {
    && decoded.Some? && KnownProduct(cfg, decoded.value.productId) && decoded.value.id != "" && decoded.value.original != ""
    && !decoded.value.revoked && decoded.value.expiresMs.Some? && decoded.value.expiresMs.value > now
  }

  /** The last move of the subscription, if it was ever moved, is at least 30 days back. */
  predicate MayMove(book: Book, id: SubId, nowS: int) {
    id in book.subs && book.subs[id].movedAt.Some? ==> nowS >= book.subs[id].movedAt.value + 2_592_000
  }

  lemma MayMoveIs(book: Book, id: SubId, nowS: int)
    ensures var at := TransferAvailableAt(if id in book.subs then book.subs[id].movedAt else None, nowS);
            (at.None? <==> MayMove(book, id, nowS)) && (at.Some? ==> id in book.subs && at.value == book.subs[id].movedAt.value + 2_592_000)
  {
  }

  /** POST claim: an unowned or own subscription is settled for the caller, another's is refused, waits out
      the 30 days, or moves to the caller with the rest of its period. */
  lemma AppleClaimLaw(cfg: A.Config, st: Store, now: nat, code: Code, expected: string, decoded: Option<A.Txn>, sandbox: bool, transfer: bool)
    ensures var e := A.Claim(cfg, st, now, code, expected, decoded, sandbox, transfer);
            && (!Claimable(cfg, decoded, now) ==> e.reply.Refused? && e.st == st)
            && (Claimable(cfg, decoded, now) ==>
                  var txn, id := decoded.value, SubId(Apple, decoded.value.original);
                  var owner := Owner(st.book, txn, NamedOnClaim(st.book, code, expected, txn.token));
                  if owner == None || owner == Some(code) then
                    AppleCredited(cfg, st, e, txn, sandbox, code) && e.st.book.tokens == st.book.tokens[expected := code]
                  else if !transfer then e.reply == A.Refused(A.OwnedByOtherDevice) && e.st == st
                  else if !MayMove(st.book, id, now / 1000) then e.reply == A.TooSoon(st.book.subs[id].movedAt.value + 2_592_000) && e.st == st
                  else exists days: nat, plan :: AppleProduct(cfg, txn.productId, days, plan)
                         && AppleMoved(cfg, st, e, now, code, txn.original, plan, txn.expiresMs.value, sandbox, User))
  {
    hide AppleCredited, AppleMoved, A.AfterSettle, A.SettleReply, A.AfterMove, A.MoveReply, A.DaysForProduct, TransferAvailableAt,
      AppleProduct, MayMove, A.OwnerOf, Owner;
    if decoded.Some? {
      var txn := decoded.value;
      ProductIs(cfg, txn.productId);
      OwnerIs(st.book, txn, NamedOnClaim(st.book, code, expected, txn.token));
      MayMoveIs(st.book, SubId(Apple, txn.original), now / 1000);
      if Claimable(cfg, decoded, now) {
        var days, mapped := A.DaysForProduct(cfg, txn.productId).value, A.TokenMapped(st, expected, code);
        assert AppleProduct(cfg, txn.productId, days, PlanFor(days));
        SettleCredits(cfg, st, mapped, code, txn, sandbox, days);
        MoveHandsOver(cfg, st, mapped, now, code, txn.original, PlanFor(days), txn.expiresMs.value, sandbox, User);
      }
    }
  }

  /** The code a notification's token was mapped to. */
  ghost function NamedByToken(book: Book, token: Option<string>): Option<string> {
    if token.Some? && token.value != "" && token.value in book.tokens then Some(book.tokens[token.value]) else None
  }

  /** A renewal or other granting notification credits the owner, if one is known; the others only set the
      status of a subscription already there. */
  lemma AppleNotifyLaw(cfg: A.Config, st: Store, kind: A.Notice, decoded: Option<A.Txn>, sandbox: bool)
    ensures var e := A.Notify(cfg, st, kind, decoded, sandbox);
            && (e.reply.Refused? ==> e.st == st)
            && (kind == A.GrantNotice ==>
                  && (e.reply.Credited? <==>
                        && decoded.Some? && KnownProduct(cfg, decoded.value.productId) && decoded.value.id != "" && decoded.value.original != ""
                        && (SubId(Apple, decoded.value.original) in st.book.subs
                            || NamedByToken(st.book, decoded.value.token).Some?))
                  && (e.reply.Credited? ==>
                        var owner := Owner(st.book, decoded.value, NamedByToken(st.book, decoded.value.token));
                        owner.Some? && owner.value != "" && AppleCredited(cfg, st, e, decoded.value, sandbox, owner.value)))
            && (kind != A.GrantNotice ==>
                  && (e.reply == A.Noticed <==> decoded.Some? && decoded.value.original != "")
                  && (e.reply == A.Noticed ==>
                        && e.st.db == st.db && e.st.book.tokens == st.book.tokens && e.st.book.moves == st.book.moves
                        && e.st.book.subs == map k | k in st.book.subs ::
                             if k == SubId(Apple, decoded.value.original) && kind != A.OtherNotice then
                               st.book.subs[k].(status := if kind == A.RefundNotice then Refunded else if kind == A.ExpiredNotice then Canceled else OnHold)
                             else st.book.subs[k]))
  {
    hide AppleCredited, A.AfterSettle, A.SettleReply, A.DaysForProduct;
    if decoded.Some? && kind == A.GrantNotice && decoded.value.original != "" {
      var txn := decoded.value;
      var named := NamedByToken(st.book, txn.token);
      ProductIs(cfg, txn.productId);
      OwnerIs(st.book, txn, named);
      if A.DaysForProduct(cfg, txn.productId).Some? && A.OwnerOf(st.book.subs, txn, named).Some? {
        SettleCredits(cfg, st, st, A.OwnerOf(st.book.subs, txn, named).value, txn, sandbox, A.DaysForProduct(cfg, txn.productId).value);
        SettleIsCredited(cfg, st, A.OwnerOf(st.book.subs, txn, named).value, txn, sandbox, A.DaysForProduct(cfg, txn.productId).value);
      }
    }
  }

  /** A support rebind: of a known subscription, alone, or with the rest of its noted, still running period. */
  lemma AppleRebindLaw(cfg: A.Config, st: Store, now: nat, original: string, code: Code, grantRemaining: bool)
    ensures var e, id := A.Rebind(cfg, st, now, original, code, grantRemaining), SubId(Apple, original);
            && (e.reply.Moved? <==>
                  && id in st.book.subs
                  && (grantRemaining ==> st.book.subs[id].status == Active && st.book.subs[id].expiresMs.Some? && st.book.subs[id].expiresMs.value > now))
            && (!e.reply.Moved? ==> e.reply.Refused? && e.st == st)
            && (e.reply.Moved? && !grantRemaining ==>
                  e.st.db == st.db && MovedTo(st.book, e.st.book, id, code, st.book.subs[id].plan, Admin, 0, now / 1000) && e.reply.grant == None)
            && (e.reply.Moved? && grantRemaining ==>
                  AppleMoved(cfg, st, e, now, code, original, st.book.subs[id].plan, st.book.subs[id].expiresMs.value,
                             st.book.subs[id].sandbox == Some(true), Admin))
  {
    hide AppleMoved, MovedTo, A.AfterMove, A.MoveReply, Rebound;
    var id := SubId(Apple, original);
    if id in st.book.subs {
      var known := st.book.subs[id];
      MoveIsOne(st.book, id, code, known.plan, Admin, 0, now / 1000);
      if known.expiresMs.Some? {
        MoveHandsOver(cfg, st, st, now, code, original, known.plan, known.expiresMs.value, known.sandbox == Some(true), Admin);
      }
    }
  }

  // ---------------------------------------------------------------- Google

  ghost predicate BasePlan(cfg: G.Config, basePlan: Option<string>, days: nat, plan: Plan) {
    || (basePlan == Some(cfg.basePlanMonthly) && days == 30 && plan == Monthly)
    || (basePlan == Some(cfg.basePlanAnnual) && cfg.basePlanAnnual != cfg.basePlanMonthly && days == 360 && plan == Annual)
  }

  predicate KnownPlan(cfg: G.Config, basePlan: Option<string>) {
    basePlan == Some(cfg.basePlanMonthly) || basePlan == Some(cfg.basePlanAnnual)
  }

  /** What a bound purchase will be credited for: its base plan's days, the order's id, its period. */
  ghost predicate FactsOf(cfg: G.Config, play: G.Play, facts: G.Facts) {
    && BasePlan(cfg, play.basePlan, facts.days, facts.plan)
    && facts.orderId == play.orderId && facts.expiryMs == play.expiryMs && facts.test == play.test
  }

  lemma FactsIs(cfg: G.Config, play: G.Play)
    ensures G.PeriodFacts(cfg, play).Usable? <==> KnownPlan(cfg, play.basePlan) && play.orderId != ""
    ensures G.PeriodFacts(cfg, play).Usable? ==> FactsOf(cfg, play, G.PeriodFacts(cfg, play).facts)
  {
  }

  lemma BindIs(book: Book, id: SubId, code: Code, plan: Plan)
    ensures Bound(book, Upserted(book, id, code, plan), id, code, plan) && Upserted(book, id, code, plan).tokens == book.tokens
  {
  }

  /** verifyPurchase up to the acknowledgement: bound exactly for a valid code and an active purchase of a known
      base plan with an order, made for that code where that is asked; to the owner of a moved subscription,
      else to the code. */
  lemma GoogleVerifyLaw(cfg: G.Config, st: Store, code: string, token: string, play: G.Play, requireMatch: bool)
    ensures var e, id := G.Verify(cfg, st, code, token, play, requireMatch), SubId(Google, token);
            && (e.reply.Bound? <==>
                  ValidCode(code) && play.active && (requireMatch ==> play.account == Some(code)) && KnownPlan(cfg, play.basePlan) && play.orderId != "")
            && (!e.reply.Bound? ==> e.reply.Refused? && e.st == st)
            && (e.reply.Bound? ==>
                  && e.reply.code == (if id in st.book.subs && st.book.subs[id].movedAt.Some? then st.book.subs[id].code else code)
                  && FactsOf(cfg, play, e.reply.facts) && e.st.db == st.db
                  && Bound(st.book, e.st.book, id, e.reply.code, e.reply.facts.plan))
  {
    hide ValidCode, Upserted, Bound, FactsOf, G.PeriodFacts;
    FactsIs(cfg, play);
    var e := G.Verify(cfg, st, code, token, play, requireMatch);
    if e.reply.Bound? { BindIs(st.book, SubId(Google, token), e.reply.code, e.reply.facts.plan); }
  }

  ghost predicate GoogleCredited(cfg: G.Config, play: G.Play, st: Store, e: G.Effect, code: Code)
    requires e.reply.Credited?
  {
    exists days: nat, plan :: BasePlan(cfg, play.basePlan, days, plan)
      && !e.reply.test && e.reply.days == days && e.reply.grant.Some?
      && Granted(st.db, e.st.db, e.reply.grant.value, cfg.price, Google, play.orderId, code, days)
  }

  /** After the acknowledgement: the base plan's days under the order's id; a test purchase without test grants
      gets the probe, under one key a subscription, or nothing. */
  lemma GoogleCreditLaw(cfg: G.Config, play: G.Play, st: Store, code: Code, token: string, facts: G.Facts)
    requires FactsOf(cfg, play, facts)
    ensures var e := G.Credit(cfg, st, code, token, facts);
            && e.reply.Credited? && e.st.book == st.book
            && if play.test && !cfg.testGrants then
                 && e.reply.test && e.reply.days == cfg.testGrantDays
                 && if cfg.testGrantDays == 0 then e.reply.grant == None && e.st.db == st.db
                    else e.reply.grant.Some?
                         && Granted(st.db, e.st.db, e.reply.grant.value, cfg.price, Google, "test:" + token, code, cfg.testGrantDays)
               else GoogleCredited(cfg, play, st, e, code)
  {
    hide Granted, AfterGrant, GrantAnswer;
    GrantedIs(st.db, cfg.price, Google, facts.orderId, code, facts.days);
    GrantedIs(st.db, cfg.price, Google, "test:" + token, code, cfg.testGrantDays);
    assert BasePlan(cfg, play.basePlan, facts.days, facts.plan);
  }

  ghost predicate GoogleMoved(cfg: G.Config, st: Store, e: G.Effect, now: nat, code: Code, token: string, play: G.Play, actor: Actor) {
    exists days: nat, planDays: nat, plan :: GoogleMovedFor(cfg, st, e, now, code, token, play, actor, days, planDays, plan)
  }

  ghost predicate GoogleMovedFor(cfg: G.Config, st: Store, e: G.Effect, now: nat, code: Code, token: string, play: G.Play, actor: Actor,
                                 days: nat, planDays: nat, plan: Plan)
  {
    && BasePlan(cfg, play.basePlan, planDays, plan)
    && (if play.test && !cfg.testGrants then days == cfg.testGrantDays else DaysLeft(days, play.expiryMs, now, planDays))
    && MovedTo(st.book, e.st.book, SubId(Google, token), code, plan, actor, days, now / 1000)
    && e.reply.Moved? && e.reply.test == play.test && e.reply.period == (if play.test && !cfg.testGrants then None else play.expiryMs)
    && HandedOver(st.db, e.st.db, e.reply.grant, e.reply.days, cfg.price, Google, code, days,
                  if play.test && !cfg.testGrants then "test-transfer:" + token
                  else TransferKey(token, if play.expiryMs.Some? && play.expiryMs.value >= 0 then play.expiryMs.value else 0))
  }

  lemma GoogleMoveHandsOver(cfg: G.Config, st: Store, now: nat, code: Code, token: string, play: G.Play, facts: G.Facts, actor: Actor)
    requires FactsOf(cfg, play, facts)
    ensures GoogleMoved(cfg, st, G.Effect(G.AfterMove(cfg, st, now, code, token, facts, actor), G.MoveReply(cfg, st, now, code, token, facts)),
                        now, code, token, play, actor)
    ensures G.MoveReply(cfg, st, now, code, token, facts).Moved?
  {
    var days := G.MoveDays(cfg, now, facts);
    DaysLeftIs(facts.expiryMs, now, facts.plan, facts.days);
    MoveIsOne(st.book, SubId(Google, token), code, facts.plan, actor, days, now / 1000);
    HandOverIs(st.db, cfg.price, Google, G.MoveKey(cfg, token, facts), code, days);
    hide HandedOver, DaysLeft, MovedTo, Rebound, AfterGrant, GrantAnswer, RemainingDays, TransferKey;
    var e := G.Effect(G.AfterMove(cfg, st, now, code, token, facts, actor), G.MoveReply(cfg, st, now, code, token, facts));
    assert GoogleMovedFor(cfg, st, e, now, code, token, play, actor, days, facts.days, facts.plan);
  }

  /** claimPurchase: as on Apple, the owner being the code bound, else the purchase's account. */
  lemma GoogleClaimLaw(cfg: G.Config, st: Store, now: nat, code: Code, token: string, play: G.Play, transfer: bool)
    ensures var e, id := G.Claim(cfg, st, now, code, token, play, transfer), SubId(Google, token);
            var heard := ValidCode(code) && play.active && KnownPlan(cfg, play.basePlan) && play.orderId != "";
            var owner := if id in st.book.subs then Some(st.book.subs[id].code)
                         else if play.account.Some? && play.account.value != "" then play.account else None;
            if !heard then e.reply.Refused? && e.st == st
            else if owner == None || owner == Some(code) then
              && e.reply.Bound? && e.reply.code == code && FactsOf(cfg, play, e.reply.facts) && e.st.db == st.db
              && Bound(st.book, e.st.book, id, code, e.reply.facts.plan)
            else if !transfer then e.reply == G.Refused(G.OwnedByOtherDevice) && e.st == st
            else if !MayMove(st.book, id, now / 1000) then e.reply == G.TooSoon(st.book.subs[id].movedAt.value + 2_592_000) && e.st == st
            else GoogleMoved(cfg, st, e, now, code, token, play, User)
  {
    hide ValidCode, Upserted, Bound, FactsOf, G.PeriodFacts, GoogleMoved, G.AfterMove, G.MoveReply, TransferAvailableAt, MayMove;
    FactsIs(cfg, play);
    MayMoveIs(st.book, SubId(Google, token), now / 1000);
    var period := G.PeriodFacts(cfg, play);
    if period.Usable? {
      BindIs(st.book, SubId(Google, token), code, period.facts.plan);
      GoogleMoveHandsOver(cfg, st, now, code, token, play, period.facts, User);
    }
  }

  lemma GoogleRebindLaw(cfg: G.Config, st: Store, now: nat, token: string, code: Code, grantRemaining: bool, play: G.Play)
    ensures var e, id := G.Rebind(cfg, st, now, token, code, grantRemaining, play), SubId(Google, token);
            && (e.reply.Moved? <==> id in st.book.subs && (grantRemaining ==> play.active && KnownPlan(cfg, play.basePlan) && play.orderId != ""))
            && (!e.reply.Moved? ==> e.reply.Refused? && e.st == st)
            && (e.reply.Moved? && !grantRemaining ==>
                  e.st.db == st.db && MovedTo(st.book, e.st.book, id, code, st.book.subs[id].plan, Admin, 0, now / 1000) && e.reply.grant == None)
            && (e.reply.Moved? && grantRemaining ==> GoogleMoved(cfg, st, e, now, code, token, play, Admin))
  {
    hide FactsOf, G.PeriodFacts, GoogleMoved, MovedTo, G.AfterMove, G.MoveReply, Rebound;
    FactsIs(cfg, play);
    var id, period := SubId(Google, token), G.PeriodFacts(cfg, play);
    if id in st.book.subs {
      MoveIsOne(st.book, id, code, st.book.subs[id].plan, Admin, 0, now / 1000);
      if period.Usable? { GoogleMoveHandsOver(cfg, st, now, code, token, play, period.facts, Admin); }
    }
  }

  /** A renewal credits the code the subscription is bound to, whatever account the purchase names; one of a
      subscription not seen yet the code its account names. */
  lemma GoogleRenewalLaw(cfg: G.Config, st: Store, token: string, account: Option<string>, play: G.Play)
    requires play.active && KnownPlan(cfg, play.basePlan) && play.orderId != ""
    ensures var id := SubId(Google, token);
            var code := G.NoticeCode(st, token, account);
            && (id in st.book.subs ==> code == Some(st.book.subs[id].code))
            && (id !in st.book.subs ==> code == if account.Some? && account.value != "" then account else None)
            && (code.Some? && ValidCode(code.value) ==>
                  var e := G.Verify(cfg, st, code.value, token, play, false);
                  e.reply.Bound? && e.reply.code == code.value && Bound(st.book, e.st.book, id, code.value, e.reply.facts.plan))
  {
    hide ValidCode, Bound, FactsOf;
    var code := G.NoticeCode(st, token, account);
    if code.Some? { GoogleVerifyLaw(cfg, st, code.value, token, play, false); }
  }

  // ---------------------------------------------------------------- refusals tell the truth

  ghost predicate AppleReason(cfg: A.Config, st: Store, reason: A.Refusal, decoded: Option<A.Txn>, original: string, now: nat, expected: string,
                              code: Code) {
    match reason
    case VerificationFailed => decoded.None? || decoded.value.original == ""
    case UnknownProduct => decoded.Some? && !KnownProduct(cfg, decoded.value.productId)
    case TokenMismatch => decoded.Some? && (expected == "" || decoded.value.token != Some(expected))
    case MissingIds => decoded.Some? && (decoded.value.id == "" || decoded.value.original == "")
    case Revoked => decoded.Some? && decoded.value.revoked
    case Expired => decoded.Some? && (decoded.value.expiresMs.None? || decoded.value.expiresMs.value <= now)
    case OwnedByOtherDevice =>
      && decoded.Some?
      && var owner := Owner(st.book, decoded.value, NamedOnClaim(st.book, code, expected, decoded.value.token));
         owner.Some? && owner.value != code
    case NoSuchSubscription => SubId(Apple, original) !in st.book.subs
    case NotActive => SubId(Apple, original) in st.book.subs && st.book.subs[SubId(Apple, original)].status != Active
    case NoCurrentPeriod =>
      SubId(Apple, original) in st.book.subs
      && (st.book.subs[SubId(Apple, original)].expiresMs.None? || st.book.subs[SubId(Apple, original)].expiresMs.value <= now)
    case CodeUnknown => decoded.Some? && SubId(Apple, decoded.value.original) !in st.book.subs && NamedByToken(st.book, decoded.value.token).None?
    case BadProduct => decoded.Some? && (!KnownProduct(cfg, decoded.value.productId) || decoded.value.id == "")
  }

  /** Whichever reason an Apple call gives for refusing holds. */
  lemma AppleRefusalsAreTrue(cfg: A.Config, st: Store, now: nat, code: Code, expected: string, decoded: Option<A.Txn>, sandbox: bool, flag: bool,
                             kind: A.Notice, original: string)
    ensures var r := A.Verify(cfg, st, code, expected, decoded, sandbox).reply;
            r.Refused? ==> AppleReason(cfg, st, r.reason, decoded, original, now, expected, code)
    ensures var r := A.Claim(cfg, st, now, code, expected, decoded, sandbox, flag).reply;
            r.Refused? ==> AppleReason(cfg, st, r.reason, decoded, original, now, expected, code)
    ensures var r := A.Rebind(cfg, st, now, original, code, flag).reply;
            r.Refused? ==> AppleReason(cfg, st, r.reason, decoded, original, now, expected, code)
    ensures var r := A.Notify(cfg, st, kind, decoded, sandbox).reply;
            r.Refused? ==> AppleReason(cfg, st, r.reason, decoded, original, now, expected, code)
  {
    hide A.AfterSettle, A.SettleReply, A.AfterMove, A.MoveReply, A.DaysForProduct, TransferAvailableAt, Rebound, StatusSet, A.OwnerOf, A.Verify;
    if decoded.Some? {
      var txn := decoded.value;
      ProductIs(cfg, txn.productId);
      OwnerIs(st.book, txn, NamedByToken(st.book, txn.token));
      OwnerIs(st.book, txn, NamedOnClaim(st.book, code, expected, txn.token));
      NeverRefused(cfg, txn, sandbox);
    }
    NeverMovesRefused(cfg);
    VerifyRefusalIsTrue(cfg, st, now, code, expected, decoded, sandbox, original);
  }

  lemma VerifyRefusalIsTrue(cfg: A.Config, st: Store, now: nat, code: Code, expected: string, decoded: Option<A.Txn>, sandbox: bool, original: string)
    ensures var r := A.Verify(cfg, st, code, expected, decoded, sandbox).reply;
            r.Refused? ==> AppleReason(cfg, st, r.reason, decoded, original, now, expected, code)
  {
    hide A.AfterSettle, A.SettleReply, A.DaysForProduct, AppleCredited, Owner, A.OwnerOf;
    AppleVerifyLaw(cfg, st, code, expected, decoded, sandbox);
    if decoded.Some? { ProductIs(cfg, decoded.value.productId); }
  }

  lemma NeverRefused(cfg: A.Config, txn: A.Txn, sandbox: bool)
    ensures forall s: Store, c: Code, days: nat :: A.SettleReply(cfg, s, c, txn, sandbox, days).Credited?
  {
    hide GrantAnswer;
  }

  lemma NeverMovesRefused(cfg: A.Config)
    ensures forall s: Store, now: nat, c: Code, original, plan, expiresMs, box :: A.MoveReply(cfg, s, now, c, original, plan, expiresMs, box).Moved?
  {
    hide GrantAnswer, A.MoveDays, A.MoveKey;
  }

  ghost predicate GoogleReason(cfg: G.Config, st: Store, reason: G.Refusal, code: string, token: string, play: G.Play) {
    match reason
    case InvalidPaymentCode => !ValidCode(code)
    case Inactive => !play.active
    case AccountMismatch => play.account.Some? && play.account.value != "" && play.account.value != code
    case AccountMissing => play.account.None? || play.account.value == ""
    case UnknownBasePlan => !KnownPlan(cfg, play.basePlan)
    case NoOrderId => play.orderId == ""
    case OwnedByOtherDevice =>
      if SubId(Google, token) in st.book.subs then st.book.subs[SubId(Google, token)].code != code
      else play.account.Some? && play.account.value != "" && play.account.value != code
    case NoSuchSubscription => SubId(Google, token) !in st.book.subs
  }

  /** And whichever a Google call gives. */
  lemma GoogleRefusalsAreTrue(cfg: G.Config, st: Store, now: nat, code: Code, token: string, play: G.Play, flag: bool)
    ensures var r := G.Verify(cfg, st, code, token, play, flag).reply;
            r.Refused? ==> GoogleReason(cfg, st, r.reason, code, token, play)
    ensures var r := G.Claim(cfg, st, now, code, token, play, flag).reply;
            r.Refused? ==> GoogleReason(cfg, st, r.reason, code, token, play)
    ensures var r := G.Rebind(cfg, st, now, token, code, flag, play).reply;
            r.Refused? ==> GoogleReason(cfg, st, r.reason, code, token, play)
  {
    hide ValidCode, Upserted, G.AfterMove, G.MoveReply, TransferAvailableAt, Rebound;
    if G.PeriodFacts(cfg, play).Usable? {
      FactsIs(cfg, play);
      GoogleMoveHandsOver(cfg, st, now, code, token, play, G.PeriodFacts(cfg, play).facts, User);
      GoogleMoveHandsOver(cfg, st, now, code, token, play, G.PeriodFacts(cfg, play).facts, Admin);
    }
  }
}
