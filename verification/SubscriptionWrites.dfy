/** The database statements the two rails make, in their order. A process that dies within a call leaves
    those it had made. */
module SubscriptionWrites {
  import opened Common
  import opened PaymentCodes
  import opened Payments
  import opened Subscriptions
  import A = AppleStore
  import G = GooglePlay

  datatype Write =
    | MapsToken(token: string, tokenCode: Code)
    | Upserts(id: SubId, code: Code, plan: Plan)
    | Notes(id: SubId, expiresMs: int, sandbox: bool)
    | Sets(id: SubId, status: Standing)
    | Rebinds(id: SubId, code: Code, plan: Plan, actor: Actor, days: nat, nowS: int)
    | Records(price: Price, rail: Rail, key: string, payee: string, days: nat)

  function Written(st: Store, w: Write): Store {
    match w
    case MapsToken(token, code) => st.(book := st.book.(tokens := st.book.tokens[token := code]))
    case Upserts(id, code, plan) => st.(book := Upserted(st.book, id, code, plan))
    case Notes(id, expiresMs, sandbox) => st.(book := ExpiryNoted(st.book, id, expiresMs, sandbox))
    case Sets(id, status) => st.(book := StatusSet(st.book, id, status))
    case Rebinds(id, code, plan, actor, days, nowS) => st.(book := Rebound(st.book, id, code, plan, actor, days, nowS))
    case Records(price, rail, key, payee, days) => st.(db := AfterGrant(st.db, price, rail, key, payee, days))
  }

  function AllWritten(st: Store, ws: seq<Write>): Store {
    if ws == [] then st else Written(AllWritten(st, ws[..|ws| - 1]), ws[|ws| - 1])
  }

  // ---------------------------------------------------------------- Apple

  /** The grant comes last. */
  function AppleSettle(cfg: A.Config, code: Code, txn: A.Txn, sandbox: bool, days: nat): (ws: seq<Write>)
    ensures forall i :: 0 <= i < |ws| - 1 ==> !ws[i].Records?
  {
    [Upserts(A.Id(txn.original), code, PlanFor(days))]
    + (if txn.expiresMs.Some? then [Notes(A.Id(txn.original), txn.expiresMs.value, sandbox)] else [])
    + if !A.Probes(cfg, sandbox) then [Records(cfg.price, Apple, txn.id, code, days)]
      else if cfg.sandboxGrantDays == 0 then []
      else [Records(cfg.price, Apple, "sandbox:" + txn.original, code, cfg.sandboxGrantDays)]
  }

  /** The grant comes first. */
  function AppleMove(cfg: A.Config, now: nat, code: Code, original: string, plan: Plan, expiresMs: int, sandbox: bool,
                     actor: Actor): (ws: seq<Write>)
    ensures forall i :: 0 < i < |ws| ==> !ws[i].Records?
  {
    var days := A.MoveDays(cfg, now, plan, expiresMs, sandbox);
    (if days == 0 then [] else [Records(cfg.price, Apple, A.MoveKey(cfg, original, expiresMs, sandbox), code, days)])
    + [Rebinds(A.Id(original), code, plan, actor, days, now / 1000), Notes(A.Id(original), expiresMs, sandbox)]
  }

  function AppleVerify(cfg: A.Config, st: Store, code: Code, expected: string, decoded: Option<A.Txn>, sandbox: bool): seq<Write> {
    if !A.Verify(cfg, st, code, expected, decoded, sandbox).reply.Credited? then []
    else
      var txn := decoded.value;
      [MapsToken(expected, code)]
      + AppleSettle(cfg, A.OwnerOf(st.book.subs, txn, Some(code)).value, txn, sandbox, A.DaysForProduct(cfg, txn.productId).value)
  }

  function AppleClaim(cfg: A.Config, st: Store, now: nat, code: Code, expected: string, decoded: Option<A.Txn>, sandbox: bool,
                      transfer: bool): seq<Write>
  {
    var reply := A.Claim(cfg, st, now, code, expected, decoded, sandbox, transfer).reply;
    if !reply.Credited? && !reply.Moved? then []
    else
      var txn := decoded.value;
      var days := A.DaysForProduct(cfg, txn.productId).value;
      [MapsToken(expected, code)]
      + if reply.Credited? then AppleSettle(cfg, code, txn, sandbox, days)
        else AppleMove(cfg, now, code, txn.original, PlanFor(days), txn.expiresMs.value, sandbox, User)
  }

  function AppleRebind(cfg: A.Config, st: Store, now: nat, original: string, code: Code, grantRemaining: bool): seq<Write> {
    if !A.Rebind(cfg, st, now, original, code, grantRemaining).reply.Moved? then []
    else
      var known := st.book.subs[A.Id(original)];
      if !grantRemaining then [Rebinds(A.Id(original), code, known.plan, Admin, 0, now / 1000)]
      else AppleMove(cfg, now, code, original, known.plan, known.expiresMs.value, known.sandbox == Some(true), Admin)
  }

  function AppleNotify(cfg: A.Config, st: Store, kind: A.Notice, decoded: Option<A.Txn>, sandbox: bool): seq<Write> {
    var reply := A.Notify(cfg, st, kind, decoded, sandbox).reply;
    if !reply.Credited? && !reply.Noticed? then []
    else
      var txn := decoded.value;
      match kind
      case RefundNotice => [Sets(A.Id(txn.original), Refunded)]
      case ExpiredNotice => [Sets(A.Id(txn.original), Canceled)]
      case FailedToRenew => [Sets(A.Id(txn.original), OnHold)]
      case OtherNotice => []
      case GrantNotice =>
        AppleSettle(cfg, A.OwnerOf(st.book.subs, txn, Named(st.book.tokens, txn.token)).value, txn, sandbox,
                    A.DaysForProduct(cfg, txn.productId).value)
  }

  /** The code a notification's token names, if it was ever mapped. */
  function Named(tokens: map<string, Code>, token: Option<string>): Option<string> {
    if token.Some? && token.value != "" && token.value in tokens then Some(tokens[token.value]) else None
  }

  // ---------------------------------------------------------------- Google

  function GoogleMove(cfg: G.Config, now: nat, code: Code, token: string, facts: G.Facts, actor: Actor): (ws: seq<Write>)
    ensures forall i :: 0 < i < |ws| ==> !ws[i].Records?
  {
    var days := G.MoveDays(cfg, now, facts);
    (if days == 0 then [] else [Records(cfg.price, Google, G.MoveKey(cfg, token, facts), code, days)])
    + [Rebinds(G.Id(token), code, facts.plan, actor, days, now / 1000)]
  }

  function GoogleClaim(cfg: G.Config, st: Store, now: nat, code: Code, token: string, play: G.Play, transfer: bool): seq<Write> {
    var reply := G.Claim(cfg, st, now, code, token, play, transfer).reply;
    if reply.Bound? then [Upserts(G.Id(token), code, reply.facts.plan)]
    else if reply.Moved? then GoogleMove(cfg, now, code, token, G.PeriodFacts(cfg, play).facts, User)
    else []
  }

  function GoogleVerify(cfg: G.Config, st: Store, code: string, token: string, play: G.Play, requireMatch: bool): seq<Write> {
    var reply := G.Verify(cfg, st, code, token, play, requireMatch).reply;
    if reply.Bound? then [Upserts(G.Id(token), reply.code, reply.facts.plan)] else []
  }

  function GoogleRebind(cfg: G.Config, st: Store, now: nat, token: string, code: Code, grantRemaining: bool, play: G.Play): seq<Write> {
    if !G.Rebind(cfg, st, now, token, code, grantRemaining, play).reply.Moved? then []
    else if !grantRemaining then [Rebinds(G.Id(token), code, st.book.subs[G.Id(token)].plan, Admin, 0, now / 1000)]
    else GoogleMove(cfg, now, code, token, G.PeriodFacts(cfg, play).facts, Admin)
  }

  // ---------------------------------------------------------------- all of them are the call

  lemma OneWritten(st: Store, ws: seq<Write>, w: Write)
    ensures AllWritten(st, ws + [w]) == Written(AllWritten(st, ws), w)
  {
    assert (ws + [w])[..|ws + [w]| - 1] == ws;
  }

  lemma {:induction false} WrittenOn(st: Store, ws: seq<Write>, vs: seq<Write>)
    ensures AllWritten(st, ws + vs) == AllWritten(AllWritten(st, ws), vs)
  {
    hide Written;
    if vs == [] {
      assert ws + vs == ws;
    } else {
      var n := |vs| - 1;
      assert (ws + vs)[..|ws + vs| - 1] == ws + vs[..n];
      WrittenOn(st, ws, vs[..n]);
    }
  }

  lemma AppleSettleIs(cfg: A.Config, st: Store, code: Code, txn: A.Txn, sandbox: bool, days: nat)
    ensures AllWritten(st, AppleSettle(cfg, code, txn, sandbox, days)) == A.AfterSettle(cfg, st, code, txn, sandbox, days)
  {
    hide AfterGrant, Upserted, ExpiryNoted, A.Probes, AllWritten;
    var bound := [Upserts(A.Id(txn.original), code, PlanFor(days))];
    var noted := if txn.expiresMs.Some? then [Notes(A.Id(txn.original), txn.expiresMs.value, sandbox)] else [];
    var paid := if !A.Probes(cfg, sandbox) then [Records(cfg.price, Apple, txn.id, code, days)]
                else if cfg.sandboxGrantDays == 0 then []
                else [Records(cfg.price, Apple, "sandbox:" + txn.original, code, cfg.sandboxGrantDays)];
    WrittenOn(st, bound + noted, paid);
    WrittenOn(st, bound, noted);
    UpToOne(st, bound);
    UpToOne(AllWritten(st, bound), noted);
    UpToOne(AllWritten(st, bound + noted), paid);
  }

  lemma UpToOne(st: Store, ws: seq<Write>)
    ensures ws == [] ==> AllWritten(st, ws) == st
    ensures |ws| == 1 ==> AllWritten(st, ws) == Written(st, ws[0])
  {
    hide Written;
    if |ws| == 1 { assert ws[..0] == []; }
  }

  lemma AppleMoveIs(cfg: A.Config, st: Store, now: nat, code: Code, original: string, plan: Plan, expiresMs: int, sandbox: bool,
                    actor: Actor)
    ensures AllWritten(st, AppleMove(cfg, now, code, original, plan, expiresMs, sandbox, actor))
         == A.AfterMove(cfg, st, now, code, original, plan, expiresMs, sandbox, actor)
  {
    hide AfterGrant, Rebound, ExpiryNoted, A.MoveKey, A.MoveDays, AllWritten;
    var days := A.MoveDays(cfg, now, plan, expiresMs, sandbox);
    var paid := if days == 0 then [] else [Records(cfg.price, Apple, A.MoveKey(cfg, original, expiresMs, sandbox), code, days)];
    var moved := Rebinds(A.Id(original), code, plan, actor, days, now / 1000);
    var noted := Notes(A.Id(original), expiresMs, sandbox);
    UpToOne(st, paid);
    OneWritten(st, paid, moved);
    OneWritten(st, paid + [moved], noted);
    assert paid + [moved] + [noted] == paid + [moved, noted];
  }

  lemma GoogleMoveIs(cfg: G.Config, st: Store, now: nat, code: Code, token: string, facts: G.Facts, actor: Actor)
    ensures AllWritten(st, GoogleMove(cfg, now, code, token, facts, actor)) == G.AfterMove(cfg, st, now, code, token, facts, actor)
  {
    hide AfterGrant, Rebound, G.MoveKey, G.MoveDays, AllWritten;
    var days := G.MoveDays(cfg, now, facts);
    var paid := if days == 0 then [] else [Records(cfg.price, Google, G.MoveKey(cfg, token, facts), code, days)];
    UpToOne(st, paid);
    OneWritten(st, paid, Rebinds(G.Id(token), code, facts.plan, actor, days, now / 1000));
  }

  /** A call that is not interrupted makes exactly its writes. */
  lemma AppleVerifyIs(cfg: A.Config, st: Store, code: Code, expected: string, decoded: Option<A.Txn>, sandbox: bool)
    ensures AllWritten(st, AppleVerify(cfg, st, code, expected, decoded, sandbox)) == A.Verify(cfg, st, code, expected, decoded, sandbox).st
  {
    hide AllWritten, AppleSettle, A.AfterSettle, A.DaysForProduct, GrantAnswer;
    UpToOne(st, []);
    if A.Verify(cfg, st, code, expected, decoded, sandbox).reply.Credited? {
      var txn := decoded.value;
      var owner := A.OwnerOf(st.book.subs, txn, Some(code)).value;
      var days := A.DaysForProduct(cfg, txn.productId).value;
      UpToOne(st, [MapsToken(expected, code)]);
      WrittenOn(st, [MapsToken(expected, code)], AppleSettle(cfg, owner, txn, sandbox, days));
      AppleSettleIs(cfg, A.TokenMapped(st, expected, code), owner, txn, sandbox, days);
    }
  }

  lemma AppleClaimIs(cfg: A.Config, st: Store, now: nat, code: Code, expected: string, decoded: Option<A.Txn>, sandbox: bool,
                     transfer: bool)
    ensures AllWritten(st, AppleClaim(cfg, st, now, code, expected, decoded, sandbox, transfer))
         == A.Claim(cfg, st, now, code, expected, decoded, sandbox, transfer).st
  {
    hide AllWritten, AppleSettle, AppleMove, A.AfterSettle, A.AfterMove, A.OwnerOf, A.DaysForProduct, GrantAnswer, TransferAvailableAt,
      A.Purchaser, A.MoveDays, A.MoveKey;
    UpToOne(st, []);
    var reply := A.Claim(cfg, st, now, code, expected, decoded, sandbox, transfer).reply;
    if reply.Credited? || reply.Moved? {
      var txn := decoded.value;
      var days := A.DaysForProduct(cfg, txn.productId).value;
      var mapped := A.TokenMapped(st, expected, code);
      UpToOne(st, [MapsToken(expected, code)]);
      WrittenOn(st, [MapsToken(expected, code)], AppleSettle(cfg, code, txn, sandbox, days));
      AppleSettleIs(cfg, mapped, code, txn, sandbox, days);
      if reply.Moved? {
        var writes := AppleMove(cfg, now, code, txn.original, PlanFor(days), txn.expiresMs.value, sandbox, User);
        WrittenOn(st, [MapsToken(expected, code)], writes);
        AppleMoveIs(cfg, mapped, now, code, txn.original, PlanFor(days), txn.expiresMs.value, sandbox, User);
      }
    }
  }

  lemma AppleRebindIs(cfg: A.Config, st: Store, now: nat, original: string, code: Code, grantRemaining: bool)
    ensures AllWritten(st, AppleRebind(cfg, st, now, original, code, grantRemaining))
         == A.Rebind(cfg, st, now, original, code, grantRemaining).st
  {
    hide AllWritten, AppleMove, A.AfterMove, GrantAnswer, A.MoveDays, A.MoveKey, Rebound;
    UpToOne(st, []);
    if A.Rebind(cfg, st, now, original, code, grantRemaining).reply.Moved? {
      var known := st.book.subs[A.Id(original)];
      UpToOne(st, [Rebinds(A.Id(original), code, known.plan, Admin, 0, now / 1000)]);
      if grantRemaining {
        AppleMoveIs(cfg, st, now, code, original, known.plan, known.expiresMs.value, known.sandbox == Some(true), Admin);
      }
    }
  }

  lemma AppleNotifyIs(cfg: A.Config, st: Store, kind: A.Notice, decoded: Option<A.Txn>, sandbox: bool)
    ensures AllWritten(st, AppleNotify(cfg, st, kind, decoded, sandbox)) == A.Notify(cfg, st, kind, decoded, sandbox).st
  {
    hide AllWritten, AppleSettle, A.AfterSettle, A.OwnerOf, A.DaysForProduct, GrantAnswer, StatusSet;
    UpToOne(st, AppleNotify(cfg, st, kind, decoded, sandbox));
    if A.Notify(cfg, st, kind, decoded, sandbox).reply.Credited? {
      var txn := decoded.value;
      AppleSettleIs(cfg, st, A.OwnerOf(st.book.subs, txn, Named(st.book.tokens, txn.token)).value, txn, sandbox,
                    A.DaysForProduct(cfg, txn.productId).value);
    }
  }

  lemma GoogleCallIs(cfg: G.Config, st: Store, now: nat, code: Code, token: string, play: G.Play, flag: bool)
    ensures AllWritten(st, GoogleVerify(cfg, st, code, token, play, flag)) == G.Verify(cfg, st, code, token, play, flag).st
    ensures AllWritten(st, GoogleClaim(cfg, st, now, code, token, play, flag)) == G.Claim(cfg, st, now, code, token, play, flag).st
    ensures AllWritten(st, GoogleRebind(cfg, st, now, token, code, flag, play)) == G.Rebind(cfg, st, now, token, code, flag, play).st
  {
    hide AllWritten, GoogleMove, G.AfterMove, ValidCode, G.DaysForBasePlan, GrantAnswer, TransferAvailableAt, G.MoveDays, G.MoveKey,
      Rebound, Upserted;
    UpToOne(st, GoogleVerify(cfg, st, code, token, play, flag));
    UpToOne(st, GoogleClaim(cfg, st, now, code, token, play, flag));
    UpToOne(st, GoogleRebind(cfg, st, now, token, code, flag, play));
    var period := G.PeriodFacts(cfg, play);
    if period.Usable? {
      GoogleMoveIs(cfg, st, now, code, token, period.facts, User);
      GoogleMoveIs(cfg, st, now, code, token, period.facts, Admin);
    }
  }
}
