/** Whole runs of both rails over one database: every interleaving of calls, notifications, resumed
    awaits, queue work and crashes, between calls and between any two statements of one. */
module SubscriptionRuns {
  import opened Common
  import opened PaymentCodes
  import opened Payments
  import opened Subscriptions
  import W = SubscriptionWrites
  import A = AppleStore
  import G = GooglePlay

  datatype Config = Config(apple: A.Config, google: G.Config)

  /** A Google call waiting on an await: a notification about to ask Play again, or a settle whose
      grant follows the acknowledgement. */
  datatype Flight = Lookup(token: string, code: Code) | Settling(token: string, code: Code, facts: G.Facts)

  datatype State = State(store: Store, flights: multiset<Flight>)

  datatype Event =
    | AppleVerify(code: Code, expected: string, decoded: Option<A.Txn>, sandbox: bool)
    | AppleClaim(now: nat, code: Code, expected: string, decoded: Option<A.Txn>, sandbox: bool, transfer: bool)
    | AppleRebind(now: nat, original: string, code: Code, grantRemaining: bool)
    | AppleNotify(kind: A.Notice, decoded: Option<A.Txn>, sandbox: bool)
    | GoogleVerify(code: Code, token: string, play: G.Play)
    | GoogleClaim(now: nat, code: Code, token: string, play: G.Play, transfer: bool)
    | GoogleRebind(now: nat, token: string, code: Code, grantRemaining: bool, play: G.Play)
    | GoogleRevoked(token: string)
    | NoticeArrives(token: string, account: Option<string>)
    | NoticeResumes(token: string, code: Code, play: G.Play)
    | SettleResumes(token: string, code: Code, facts: G.Facts)
    | QueueWorks(db: Db)
    | Crash
    | Interrupted(call: Event, writes: nat)   // the process dies within the call, after so many statements

  datatype Reply = FromApple(apple: A.Reply) | FromGoogle(google: G.Reply) | Silent

  datatype Outcome = Outcome(state: State, reply: Reply)

  function AppleOutcome(s: State, e: A.Effect): Outcome {
    Outcome(s.(store := e.st), FromApple(e.reply))
  }

  function GoogleOutcome(s: State, token: string, e: G.Effect): Outcome {
    Outcome(State(e.st, if e.reply.Bound? then s.flights + multiset{Settling(token, e.reply.code, e.reply.facts)} else s.flights),
            FromGoogle(e.reply))
  }

  /** What the queue's own loops may do: no recorded key is ever lost. */
  ghost predicate QueueStep(before: Db, after: Db) {
    KeysKept(before, after) && IdsBelow(after)
  }

  /** The statements of a call that makes more than one. */
  ghost function Writes(cfg: Config, st: Store, call: Event): seq<W.Write> {
    match call
    case AppleVerify(code, expected, decoded, sandbox) => W.AppleVerify(cfg.apple, st, code, expected, decoded, sandbox)
    case AppleClaim(now, code, expected, decoded, sandbox, transfer) =>
      W.AppleClaim(cfg.apple, st, now, code, expected, decoded, sandbox, transfer)
    case AppleRebind(now, original, code, grantRemaining) => W.AppleRebind(cfg.apple, st, now, original, code, grantRemaining)
    case AppleNotify(kind, decoded, sandbox) => W.AppleNotify(cfg.apple, st, kind, decoded, sandbox)
    case GoogleVerify(code, token, play) => W.GoogleVerify(cfg.google, st, code, token, play, true)
    case GoogleClaim(now, code, token, play, transfer) => W.GoogleClaim(cfg.google, st, now, code, token, play, transfer)
    case GoogleRebind(now, token, code, grantRemaining, play) =>
      W.GoogleRebind(cfg.google, st, now, token, code, grantRemaining, play)
    case _ => []
  }

  ghost function Cut(cfg: Config, st: Store, call: Event, writes: nat): Store {
    var ws := Writes(cfg, st, call);
    W.AllWritten(st, ws[..Min(writes, |ws|)])
  }

  ghost function Step(cfg: Config, s: State, ev: Event): Outcome {
    match ev
    case AppleVerify(code, expected, decoded, sandbox) =>
      AppleOutcome(s, A.Verify(cfg.apple, s.store, code, expected, decoded, sandbox))
    case AppleClaim(now, code, expected, decoded, sandbox, transfer) =>
      AppleOutcome(s, A.Claim(cfg.apple, s.store, now, code, expected, decoded, sandbox, transfer))
    case AppleRebind(now, original, code, grantRemaining) =>
      AppleOutcome(s, A.Rebind(cfg.apple, s.store, now, original, code, grantRemaining))
    case AppleNotify(kind, decoded, sandbox) =>
      AppleOutcome(s, A.Notify(cfg.apple, s.store, kind, decoded, sandbox))
    case GoogleVerify(code, token, play) =>
      GoogleOutcome(s, token, G.Verify(cfg.google, s.store, code, token, play, true))
    case GoogleClaim(now, code, token, play, transfer) =>
      GoogleOutcome(s, token, G.Claim(cfg.google, s.store, now, code, token, play, transfer))
    case GoogleRebind(now, token, code, grantRemaining, play) =>
      GoogleOutcome(s, token, G.Rebind(cfg.google, s.store, now, token, code, grantRemaining, play))
    case GoogleRevoked(token) =>
      Outcome(s.(store := s.store.(book := StatusSet(s.store.book, G.Id(token), Refunded))), Silent)
    case NoticeArrives(token, account) =>
      var code := G.NoticeCode(s.store, token, account);
      Outcome(if code.Some? then s.(flights := s.flights + multiset{Lookup(token, code.value)}) else s, Silent)
    case NoticeResumes(token, code, play) =>
      if Lookup(token, code) !in s.flights then Outcome(s, Silent)
      else GoogleOutcome(s.(flights := s.flights - multiset{Lookup(token, code)}), token,
                         G.Verify(cfg.google, s.store, code, token, play, false))
    case SettleResumes(token, code, facts) =>
      if Settling(token, code, facts) !in s.flights then Outcome(s, Silent)
      else GoogleOutcome(s.(flights := s.flights - multiset{Settling(token, code, facts)}), token,
                         G.Credit(cfg.google, s.store, code, token, facts))
    case QueueWorks(db) =>
      Outcome(if QueueStep(s.store.db, db) then s.(store := s.store.(db := db)) else s, Silent)
    case Crash => Outcome(s.(flights := multiset{}), Silent)
    case Interrupted(call, writes) => Outcome(State(Cut(cfg, s.store, call, writes), multiset{}), Silent)
  }

  /** A call is all of its statements. */
  lemma CallIsItsWrites(cfg: Config, s: State, call: Event)
    requires IsCall(call)
    ensures W.AllWritten(s.store, Writes(cfg, s.store, call)) == Step(cfg, s, call).state.store
  {
    hide A.Verify, A.Claim, A.Rebind, A.Notify, G.Verify, G.Claim, G.Rebind, W.AllWritten, W.AppleVerify, W.AppleClaim, W.AppleRebind,
      W.AppleNotify, W.GoogleVerify, W.GoogleClaim, W.GoogleRebind;
    var st := s.store;
    match call
    case AppleVerify(code, expected, decoded, sandbox) => W.AppleVerifyIs(cfg.apple, st, code, expected, decoded, sandbox);
    case AppleClaim(now, code, expected, decoded, sandbox, transfer) =>
      W.AppleClaimIs(cfg.apple, st, now, code, expected, decoded, sandbox, transfer);
    case AppleRebind(now, original, code, grantRemaining) => W.AppleRebindIs(cfg.apple, st, now, original, code, grantRemaining);
    case AppleNotify(kind, decoded, sandbox) => W.AppleNotifyIs(cfg.apple, st, kind, decoded, sandbox);
    case GoogleVerify(code, token, play) => W.GoogleCallIs(cfg.google, st, 0, code, token, play, true);
    case GoogleClaim(now, code, token, play, transfer) => W.GoogleCallIs(cfg.google, st, now, code, token, play, transfer);
    case GoogleRebind(now, token, code, rest, play) => W.GoogleCallIs(cfg.google, st, now, code, token, play, rest);
  }

  ghost function Run(cfg: Config, s: State, evs: seq<Event>): State {
    if evs == [] then s else Step(cfg, Run(cfg, s, evs[..|evs| - 1]), evs[|evs| - 1]).state
  }

  // ---------------------------------------------------------------- what one step does to the bindings

  function MovedAt(book: Book, k: SubId): Option<int> {
    if k in book.subs then book.subs[k].movedAt else None
  }

  function CodeOf(book: Book, k: SubId): Option<string> {
    if k in book.subs then Some(book.subs[k].code) else None
  }

  /** No move: the clock stands, and every moved subscription but `but` keeps its owner. */
  ghost predicate Still(before: Book, after: Book, but: Option<SubId>) {
    && after.moves == before.moves
    && (forall k :: MovedAt(after, k) == MovedAt(before, k))
    && (forall k :: MovedAt(before, k).Some? && Some(k) != but ==> CodeOf(after, k) == CodeOf(before, k))
  }

  /** One audited move: it stamps the clock, binds its target, touches nothing else, and a user's
      waits out the interval. */
  ghost predicate MovesOne(before: Book, after: Book) {
    && |after.moves| == |before.moves| + 1 && after.moves[..|before.moves|] == before.moves
    && var m := after.moves[|before.moves|];
    && m.source == CodeOf(before, m.id) && CodeOf(after, m.id) == Some(m.target) && MovedAt(after, m.id) == Some(m.at)
    && (forall k :: k != m.id ==> MovedAt(after, k) == MovedAt(before, k) && CodeOf(after, k) == CodeOf(before, k))
    && (m.actor == User && MovedAt(before, m.id).Some? ==> m.at >= MovedAt(before, m.id).value + TRANSFER_INTERVAL_S)
  }

  /** The subscription an Apple event may hand to a fresh purchaser: its transaction was bought after
      the move and its token names a device. */
  function Resubscribed(book: Book, ev: Event): Option<SubId> {
    if ev.Interrupted? then Resubscribed(book, ev.call)
    else if (ev.AppleVerify? || ev.AppleClaim? || ev.AppleNotify?) && ev.decoded.Some? then
      var txn := ev.decoded.value;
      var k := A.Id(txn.original);
      var at := MovedAt(book, k);
      if at.Some? && A.BoughtSince(txn, at.value) && txn.token.Some? then Some(k) else None
    else None
  }

  lemma SettleBinds(cfg: A.Config, st: Store, code: Code, txn: A.Txn, sandbox: bool, days: nat, k: SubId)
    ensures var after := A.AfterSettle(cfg, st, code, txn, sandbox, days).book;
            && after.moves == st.book.moves && MovedAt(after, k) == MovedAt(st.book, k)
            && CodeOf(after, k) == if k == A.Id(txn.original) then Some(code) else CodeOf(st.book, k)
  {
    hide AfterGrant;
  }

  lemma RebindMovesOne(book: Book, id: SubId, code: Code, plan: Plan, actor: Actor, days: nat, nowS: int)
    requires actor == User ==> TransferAvailableAt(MovedAt(book, id), nowS).None?
    ensures MovesOne(book, Rebound(book, id, code, plan, actor, days, nowS))
    ensures Rebound(book, id, code, plan, actor, days, nowS).moves[|book.moves|] == Move(id, CodeOf(book, id), code, actor, days, nowS)
  {
  }

  lemma NotingMovesNothing(before: Book, book: Book, id: SubId, expiresMs: int, sandbox: bool)
    requires MovesOne(before, book)
    ensures MovesOne(before, ExpiryNoted(book, id, expiresMs, sandbox))
  {
    var after := ExpiryNoted(book, id, expiresMs, sandbox);
    assert forall k :: MovedAt(after, k) == MovedAt(book, k) && CodeOf(after, k) == CodeOf(book, k);
    hide ExpiryNoted, MovedAt, CodeOf;
  }

  /** ownerOf names the bound code of a moved subscription unless it was bought again since. */
  lemma OwnerOfMoved(book: Book, txn: A.Txn, purchaser: Option<string>)
    requires txn.original != "" && MovedAt(book, A.Id(txn.original)).Some?
    ensures var k := A.Id(txn.original);
            !(A.BoughtSince(txn, MovedAt(book, k).value) && purchaser.Some?) ==> A.OwnerOf(book.subs, txn, purchaser) == CodeOf(book, k)
  {
  }

  lemma PurchaserOwns(book: Book, txn: A.Txn, purchaser: Code)
    ensures var owner := A.OwnerOf(book.subs, txn, Some(purchaser)); owner.Some? && owner.value != ""
  {
  }

  lemma StandsStill(book: Book, but: Option<SubId>)
    ensures Still(book, book, but)
  {
  }

  lemma CreditBindsNothing(cfg: G.Config, st: Store, code: Code, token: string, facts: G.Facts)
    ensures G.Credit(cfg, st, code, token, facts).st.book == st.book
  {
    hide AfterGrant, GrantAnswer;
  }

  // ---------------------------------------------------------------- what some of a call's statements do

  /** A statement that moves nothing: a moved subscription, `but` aside, it binds to its owner if at all. */
  ghost predicate Quiet(book: Book, w: W.Write, but: Option<SubId>) {
    && !w.Rebinds?
    && (w.Upserts? && MovedAt(book, w.id).Some? && Some(w.id) != but ==> CodeOf(book, w.id) == Some(w.code))
  }

  ghost predicate AllQuiet(book: Book, ws: seq<W.Write>, but: Option<SubId>) {
    forall i :: 0 <= i < |ws| ==> Quiet(book, ws[i], but)
  }

  lemma QuietIsStill(st: Store, w: W.Write, but: Option<SubId>)
    requires Quiet(st.book, w, but)
    ensures Still(st.book, W.Written(st, w).book, but)
  {
    hide AfterGrant;
  }

  lemma StillTwice(a: Book, b: Book, c: Book, but: Option<SubId>)
    requires Still(a, b, but) && Still(b, c, but)
    ensures Still(a, c, but)
  {
    hide MovedAt, CodeOf;
    forall k ensures MovedAt(c, k) == MovedAt(a, k) && (MovedAt(a, k).Some? && Some(k) != but ==> CodeOf(c, k) == CodeOf(a, k)) {
      assert MovedAt(b, k) == MovedAt(a, k) && MovedAt(c, k) == MovedAt(b, k);
    }
  }

  lemma {:induction false} QuietWrites(st: Store, ws: seq<W.Write>, but: Option<SubId>)
    requires AllQuiet(st.book, ws, but)
    ensures Still(st.book, W.AllWritten(st, ws).book, but)
  {
    hide W.Written, MovedAt, CodeOf;
    StandsStill(st.book, but);
    if ws != [] {
      var n := |ws| - 1;
      QuietWrites(st, ws[..n], but);
      var mid := W.AllWritten(st, ws[..n]);
      assert Quiet(mid.book, ws[n], but);
      QuietIsStill(mid, ws[n], but);
      StillTwice(st.book, mid.book, W.AllWritten(st, ws).book, but);
    }
  }

  /** A transfer's statements: those before the rebind bind nothing, those after only note the period. */
  ghost predicate MoveShape(book: Book, ws: seq<W.Write>, i: nat) {
    && i < |ws| && ws[i].Rebinds?
    && (ws[i].actor == User ==> TransferAvailableAt(MovedAt(book, ws[i].id), ws[i].nowS).None?)
    && (forall j :: 0 <= j < i ==> ws[j].MapsToken? || ws[j].Records?)
    && (forall j :: i < j < |ws| ==> ws[j].Notes?)
  }

  lemma {:induction false} BeforeTheRebind(st: Store, ws: seq<W.Write>)
    requires forall j :: 0 <= j < |ws| ==> ws[j].MapsToken? || ws[j].Records?
    ensures W.AllWritten(st, ws).book.subs == st.book.subs && W.AllWritten(st, ws).book.moves == st.book.moves
  {
    hide AfterGrant;
    if ws != [] { BeforeTheRebind(st, ws[..|ws| - 1]); }
  }

  lemma SameSubs(a: Book, b: Book, after: Book)
    requires a.subs == b.subs && a.moves == b.moves && MovesOne(a, after)
    ensures MovesOne(b, after)
  {
    assert forall k :: MovedAt(a, k) == MovedAt(b, k) && CodeOf(a, k) == CodeOf(b, k);
    hide MovedAt, CodeOf;
  }

  lemma {:induction false} MoveWrites(st: Store, ws: seq<W.Write>, i: nat)
    requires MoveShape(st.book, ws, i)
    ensures MovesOne(st.book, W.AllWritten(st, ws).book)
    decreases |ws|
  {
    hide MovesOne, Rebound, ExpiryNoted, AfterGrant, TransferAvailableAt;
    var n := |ws| - 1;
    var mid := W.AllWritten(st, ws[..n]);
    if i == n {
      BeforeTheRebind(st, ws[..n]);
      var w := ws[n];
      RebindMovesOne(mid.book, w.id, w.code, w.plan, w.actor, w.days, w.nowS);
      SameSubs(mid.book, st.book, W.AllWritten(st, ws).book);
    } else {
      MoveWrites(st, ws[..n], i);
      NotingMovesNothing(st.book, mid.book, ws[n].id, ws[n].expiresMs, ws[n].sandbox);
    }
  }

  /** The statements of any call are quiet, or a transfer's. */
  ghost predicate Shaped(book: Book, ws: seq<W.Write>, but: Option<SubId>) {
    AllQuiet(book, ws, but) || exists i: nat :: MoveShape(book, ws, i)
  }

  /** However many of them were made, nothing moved or one move was. */
  lemma PrefixMoves(st: Store, ws: seq<W.Write>, n: nat, but: Option<SubId>)
    requires n <= |ws| && Shaped(st.book, ws, but)
    ensures var after := W.AllWritten(st, ws[..n]).book;
            Still(st.book, after, but) || MovesOne(st.book, after)
  {
    hide MovesOne, Still, W.AllWritten, W.Written, TransferAvailableAt, MovedAt, CodeOf;
    if AllQuiet(st.book, ws, but) {
      assert AllQuiet(st.book, ws[..n], but);
      QuietWrites(st, ws[..n], but);
    } else {
      var i: nat :| MoveShape(st.book, ws, i);
      if n <= i {
        assert AllQuiet(st.book, ws[..n], but);
        QuietWrites(st, ws[..n], but);
      } else {
        assert MoveShape(st.book, ws[..n], i);
        MoveWrites(st, ws[..n], i);
      }
    }
  }

  lemma AppleSettleQuiet(cfg: A.Config, book: Book, code: Code, txn: A.Txn, sandbox: bool, days: nat, but: Option<SubId>)
    requires var k := A.Id(txn.original);
             MovedAt(book, k).Some? && but != Some(k) ==> CodeOf(book, k) == Some(code)
    ensures AllQuiet(book, W.AppleSettle(cfg, code, txn, sandbox, days), but)
  {
    hide A.Probes;
  }

  lemma AppleMoveShape(cfg: A.Config, book: Book, now: nat, code: Code, original: string, plan: Plan, expiresMs: int, sandbox: bool,
                       actor: Actor)
    requires actor == User ==> TransferAvailableAt(MovedAt(book, A.Id(original)), now / 1000).None?
    ensures var ws := W.AppleMove(cfg, now, code, original, plan, expiresMs, sandbox, actor);
            MoveShape(book, ws, |ws| - 2) && |ws| >= 2
  {
    hide A.MoveDays, A.MoveKey, MovedAt, TransferAvailableAt;
  }

  lemma GoogleMoveShape(cfg: G.Config, book: Book, now: nat, code: Code, token: string, facts: G.Facts, actor: Actor)
    requires actor == User ==> TransferAvailableAt(MovedAt(book, G.Id(token)), now / 1000).None?
    ensures var ws := W.GoogleMove(cfg, now, code, token, facts, actor);
            |ws| >= 1 && MoveShape(book, ws, |ws| - 1)
  {
    hide G.MoveDays, G.MoveKey, MovedAt, TransferAvailableAt;
  }

  lemma MappedShape(book: Book, token: string, code: Code, ws: seq<W.Write>, but: Option<SubId>)
    requires Shaped(book, ws, but)
    ensures Shaped(book, [W.MapsToken(token, code)] + ws, but)
  {
    hide MovedAt, CodeOf, TransferAvailableAt;
    var all := [W.MapsToken(token, code)] + ws;
    if AllQuiet(book, ws, but) {
      assert AllQuiet(book, all, but);
    } else {
      var i: nat :| MoveShape(book, ws, i);
      assert MoveShape(book, all, i + 1);
    }
  }

  lemma MoveIsShaped(book: Book, ws: seq<W.Write>, i: nat, but: Option<SubId>)
    requires MoveShape(book, ws, i)
    ensures Shaped(book, ws, but)
  {
    hide MoveShape, AllQuiet;
  }

  lemma AppleVerifyShaped(cfg: A.Config, st: Store, code: Code, expected: string, decoded: Option<A.Txn>, sandbox: bool, but: Option<SubId>)
    requires but == Resubscribed(st.book, AppleVerify(code, expected, decoded, sandbox))
    ensures Shaped(st.book, W.AppleVerify(cfg, st, code, expected, decoded, sandbox), but)
  {
    hide W.AppleSettle, A.AfterSettle, GrantAnswer, A.BoughtSince, A.DaysForProduct, MoveShape, AllQuiet, CodeOf, A.OwnerOf;
    NothingQuiet(st.book, but);
    if A.Verify(cfg, st, code, expected, decoded, sandbox).reply.Credited? {
      var txn := decoded.value;
      PurchaserOwns(st.book, txn, code);
      var owner: Code := A.OwnerOf(st.book.subs, txn, Some(code)).value;
      var days := A.DaysForProduct(cfg, txn.productId).value;
      if MovedAt(st.book, A.Id(txn.original)).Some? { OwnerOfMoved(st.book, txn, Some(code)); }
      AppleSettleQuiet(cfg, st.book, owner, txn, sandbox, days, but);
      MappedShape(st.book, expected, code, W.AppleSettle(cfg, owner, txn, sandbox, days), but);
    }
  }

  lemma NothingQuiet(book: Book, but: Option<SubId>)
    ensures AllQuiet(book, [], but)
  {
  }

  lemma AppleClaimShaped(cfg: A.Config, st: Store, now: nat, code: Code, expected: string, decoded: Option<A.Txn>, sandbox: bool,
                         transfer: bool, but: Option<SubId>)
    requires but == Resubscribed(st.book, AppleClaim(now, code, expected, decoded, sandbox, transfer))
    ensures Shaped(st.book, W.AppleClaim(cfg, st, now, code, expected, decoded, sandbox, transfer), but)
  {
    hide W.AppleSettle, W.AppleMove, A.AfterSettle, A.AfterMove, A.MoveReply, GrantAnswer, A.BoughtSince, A.DaysForProduct, MoveShape,
      AllQuiet, CodeOf, A.OwnerOf, A.Purchaser, TransferAvailableAt;
    var book := st.book;
    NothingQuiet(book, but);
    var reply := A.Claim(cfg, st, now, code, expected, decoded, sandbox, transfer).reply;
    if reply.Credited? || reply.Moved? {
      var txn := decoded.value;
      var days := A.DaysForProduct(cfg, txn.productId).value;
      var owner := A.OwnerOf(book.subs, txn, A.Purchaser(book.tokens, code, expected, txn.token));
      if owner.None? || owner.value == code {
        if MovedAt(book, A.Id(txn.original)).Some? { OwnerOfMoved(book, txn, A.Purchaser(book.tokens, code, expected, txn.token)); }
        PurchaserNamed(book, code, expected, txn);
        MovedHasOwner(book, A.Id(txn.original));
        SettleNeverMoves(cfg, A.TokenMapped(st, expected, code), code, txn, sandbox, days);
        AppleSettleQuiet(cfg, book, code, txn, sandbox, days, but);
        MappedShape(book, expected, code, W.AppleSettle(cfg, code, txn, sandbox, days), but);
      } else {
        var ws := W.AppleMove(cfg, now, code, txn.original, PlanFor(days), txn.expiresMs.value, sandbox, User);
        MovesNeverCredit(cfg, A.TokenMapped(st, expected, code), now, code, txn.original, PlanFor(days), txn.expiresMs.value, sandbox);
        AppleMoveShape(cfg, book, now, code, txn.original, PlanFor(days), txn.expiresMs.value, sandbox, User);
        MoveIsShaped(book, ws, |ws| - 2, but);
        MappedShape(book, expected, code, ws, but);
      }
    }
  }

  lemma MovedHasOwner(book: Book, k: SubId)
    ensures MovedAt(book, k).Some? ==> CodeOf(book, k).Some?
  {
  }

  lemma PurchaserNamed(book: Book, code: Code, expected: string, txn: A.Txn)
    ensures A.Purchaser(book.tokens, code, expected, txn.token).Some? ==> txn.token.Some?
  {
  }

  lemma MovesNeverCredit(cfg: A.Config, st: Store, now: nat, code: Code, original: string, plan: Plan, expiresMs: int, sandbox: bool)
    ensures A.MoveReply(cfg, st, now, code, original, plan, expiresMs, sandbox).Moved?
  {
  }

  lemma AppleRebindShaped(cfg: A.Config, st: Store, now: nat, original: string, code: Code, grantRemaining: bool, but: Option<SubId>)
    ensures Shaped(st.book, W.AppleRebind(cfg, st, now, original, code, grantRemaining), but)
  {
    hide W.AppleMove, A.AfterMove, GrantAnswer, MoveShape, AllQuiet, TransferAvailableAt, Rebound;
    NothingQuiet(st.book, but);
    if A.Rebind(cfg, st, now, original, code, grantRemaining).reply.Moved? {
      var known := st.book.subs[A.Id(original)];
      if !grantRemaining {
        RebindAlone(st.book, A.Id(original), code, known.plan, now / 1000, but);
      } else {
        var ws := W.AppleMove(cfg, now, code, original, known.plan, known.expiresMs.value, known.sandbox == Some(true), Admin);
        AppleMoveShape(cfg, st.book, now, code, original, known.plan, known.expiresMs.value, known.sandbox == Some(true), Admin);
        MoveIsShaped(st.book, ws, |ws| - 2, but);
      }
    }
  }

  lemma RebindAlone(book: Book, id: SubId, code: Code, plan: Plan, nowS: int, but: Option<SubId>)
    ensures Shaped(book, [W.Rebinds(id, code, plan, Admin, 0, nowS)], but)
  {
    assert MoveShape(book, [W.Rebinds(id, code, plan, Admin, 0, nowS)], 0);
  }

  lemma AppleNotifyShaped(cfg: A.Config, st: Store, kind: A.Notice, decoded: Option<A.Txn>, sandbox: bool, but: Option<SubId>)
    requires but == Resubscribed(st.book, AppleNotify(kind, decoded, sandbox))
    ensures Shaped(st.book, W.AppleNotify(cfg, st, kind, decoded, sandbox), but)
  {
    hide W.AppleSettle, A.AfterSettle, GrantAnswer, A.BoughtSince, A.DaysForProduct, MoveShape, CodeOf, A.OwnerOf, MovedAt, StatusSet;
    if A.Notify(cfg, st, kind, decoded, sandbox).reply.Credited? {
      hide AllQuiet;
      var txn := decoded.value;
      var purchaser := W.Named(st.book.tokens, txn.token);
      if MovedAt(st.book, A.Id(txn.original)).Some? { OwnerOfMoved(st.book, txn, purchaser); }
      AppleSettleQuiet(cfg, st.book, A.OwnerOf(st.book.subs, txn, purchaser).value, txn, sandbox,
                       A.DaysForProduct(cfg, txn.productId).value, but);
    }
  }

  lemma UpsertQuiet(book: Book, id: SubId, code: Code, plan: Plan, but: Option<SubId>)
    requires MovedAt(book, id).Some? ==> CodeOf(book, id) == Some(code)
    ensures Shaped(book, [W.Upserts(id, code, plan)], but)
  {
  }

  lemma GoogleVerifyShaped(cfg: G.Config, st: Store, code: string, token: string, play: G.Play, requireMatch: bool, but: Option<SubId>)
    ensures Shaped(st.book, W.GoogleVerify(cfg, st, code, token, play, requireMatch), but)
  {
    hide ValidCode, Upserted, G.DaysForBasePlan, Shaped;
    NothingShaped(st.book, but);
    var reply := G.Verify(cfg, st, code, token, play, requireMatch).reply;
    if reply.Bound? { UpsertQuiet(st.book, G.Id(token), reply.code, reply.facts.plan, but); }
  }

  lemma NothingShaped(book: Book, but: Option<SubId>)
    ensures Shaped(book, [], but)
  {
  }

  lemma GoogleClaimShaped(cfg: G.Config, st: Store, now: nat, code: Code, token: string, play: G.Play, transfer: bool, but: Option<SubId>)
    ensures Shaped(st.book, W.GoogleClaim(cfg, st, now, code, token, play, transfer), but)
  {
    hide ValidCode, Upserted, G.DaysForBasePlan, G.AfterMove, W.GoogleMove, TransferAvailableAt, Shaped, MoveShape, GrantAnswer;
    NothingShaped(st.book, but);
    var reply := G.Claim(cfg, st, now, code, token, play, transfer).reply;
    if reply.Bound? {
      UpsertQuiet(st.book, G.Id(token), code, reply.facts.plan, but);
    } else if reply.Moved? {
      var facts := G.PeriodFacts(cfg, play).facts;
      GoogleMoveShape(cfg, st.book, now, code, token, facts, User);
      var ws := W.GoogleMove(cfg, now, code, token, facts, User);
      MoveIsShaped(st.book, ws, |ws| - 1, but);
    }
  }

  lemma GoogleRebindShaped(cfg: G.Config, st: Store, now: nat, token: string, code: Code, grantRemaining: bool, play: G.Play, but: Option<SubId>)
    ensures Shaped(st.book, W.GoogleRebind(cfg, st, now, token, code, grantRemaining, play), but)
  {
    hide G.DaysForBasePlan, G.AfterMove, Rebound, W.GoogleMove, TransferAvailableAt, Shaped, MoveShape, GrantAnswer;
    NothingShaped(st.book, but);
    if G.Rebind(cfg, st, now, token, code, grantRemaining, play).reply.Moved? {
      if !grantRemaining {
        RebindAlone(st.book, G.Id(token), code, st.book.subs[G.Id(token)].plan, now / 1000, but);
      } else {
        var facts := G.PeriodFacts(cfg, play).facts;
        GoogleMoveShape(cfg, st.book, now, code, token, facts, Admin);
        var ws := W.GoogleMove(cfg, now, code, token, facts, Admin);
        MoveIsShaped(st.book, ws, |ws| - 1, but);
      }
    }
  }

  lemma CallShaped(cfg: Config, st: Store, call: Event)
    ensures Shaped(st.book, Writes(cfg, st, call), Resubscribed(st.book, call))
  {
    hide Shaped, W.AppleVerify, W.AppleClaim, W.AppleRebind, W.AppleNotify, W.GoogleVerify, W.GoogleClaim, W.GoogleRebind, Resubscribed;
    var but := Resubscribed(st.book, call);
    match call
    case AppleVerify(code, expected, decoded, sandbox) => AppleVerifyShaped(cfg.apple, st, code, expected, decoded, sandbox, but);
    case AppleClaim(now, code, expected, decoded, sandbox, transfer) =>
      AppleClaimShaped(cfg.apple, st, now, code, expected, decoded, sandbox, transfer, but);
    case AppleRebind(now, original, code, rest) => AppleRebindShaped(cfg.apple, st, now, original, code, rest, but);
    case AppleNotify(kind, decoded, sandbox) => AppleNotifyShaped(cfg.apple, st, kind, decoded, sandbox, but);
    case GoogleVerify(code, token, play) => GoogleVerifyShaped(cfg.google, st, code, token, play, true, but);
    case GoogleClaim(now, code, token, play, transfer) => GoogleClaimShaped(cfg.google, st, now, code, token, play, transfer, but);
    case GoogleRebind(now, token, code, rest, play) => GoogleRebindShaped(cfg.google, st, now, token, code, rest, play, but);
    case _ => NothingShaped(st.book, but);
  }

  predicate IsCall(ev: Event) {
    || ev.AppleVerify? || ev.AppleClaim? || ev.AppleRebind? || ev.AppleNotify?
    || ev.GoogleVerify? || ev.GoogleClaim? || ev.GoogleRebind?
  }

  /** Every step either leaves moved subscriptions with their owner, a resubscribed one aside, or is
      one audited move. */
  lemma StepMoves(cfg: Config, s: State, ev: Event)
    ensures var after := Step(cfg, s, ev).state.store.book;
            Still(s.store.book, after, Resubscribed(s.store.book, ev)) || MovesOne(s.store.book, after)
  {
    hide A.Verify, A.Claim, A.Rebind, A.Notify, G.Verify, G.Claim, G.Rebind, G.Credit, G.NoticeCode, Still, MovesOne,
      StatusSet, QueueStep, Shaped, Writes, W.AllWritten, W.GoogleVerify;
    var st, but := s.store, Resubscribed(s.store.book, ev);
    StandsStill(st.book, but);
    if IsCall(ev) {
      var ws := Writes(cfg, st, ev);
      CallIsItsWrites(cfg, s, ev);
      CallShaped(cfg, st, ev);
      PrefixMoves(st, ws, |ws|, but);
      assert ws[..|ws|] == ws;
    } else if ev.Interrupted? {
      var ws := Writes(cfg, st, ev.call);
      CallShaped(cfg, st, ev.call);
      PrefixMoves(st, ws, Min(ev.writes, |ws|), but);
    } else if ev.NoticeResumes? {
      var ws := W.GoogleVerify(cfg.google, st, ev.code, ev.token, ev.play, false);
      GoogleVerifyShaped(cfg.google, st, ev.code, ev.token, ev.play, false, but);
      PrefixMoves(st, ws, |ws|, but);
      assert ws[..|ws|] == ws;
      NoticeIsItsWrites(cfg.google, st, ev.code, ev.token, ev.play);
    } else if ev.SettleResumes? {
      CreditBindsNothing(cfg.google, st, ev.code, ev.token, ev.facts);
    } else if ev.GoogleRevoked? {
      QuietIsStill(st, W.Sets(G.Id(ev.token), Refunded), but);
    }
  }

  lemma NoticeIsItsWrites(cfg: G.Config, st: Store, code: Code, token: string, play: G.Play)
    ensures W.AllWritten(st, W.GoogleVerify(cfg, st, code, token, play, false)) == G.Verify(cfg, st, code, token, play, false).st
  {
    W.GoogleCallIs(cfg, st, 0, code, token, play, false);
    hide W.AllWritten, G.Verify, W.GoogleVerify;
  }

  // ---------------------------------------------------------------- ownership over runs

  predicate MovedIn(moves: seq<Move>, k: SubId) {
    exists j :: 0 <= j < |moves| && moves[j].id == k
  }

  lemma {:induction false} MovesGrow(cfg: Config, s: State, evs: seq<Event>)
    ensures |s.store.book.moves| <= |Run(cfg, s, evs).store.book.moves|
    ensures Run(cfg, s, evs).store.book.moves[..|s.store.book.moves|] == s.store.book.moves
  {
    hide Step;
    if evs != [] {
      var n := |evs| - 1;
      MovesGrow(cfg, s, evs[..n]);
      StepMoves(cfg, Run(cfg, s, evs[..n]), evs[n]);
    }
  }

  /** The ownership law: once moved, a subscription stays with its owner, and its clock stands, through
      every replay, re-verification, renewal and crash, until the next audited move or a fresh
      purchase under it. */
  lemma {:induction false} OwnerKeeps(cfg: Config, s: State, evs: seq<Event>, k: SubId)
    requires MovedAt(s.store.book, k).Some?
    requires |s.store.book.moves| <= |Run(cfg, s, evs).store.book.moves|
    requires !MovedIn(Run(cfg, s, evs).store.book.moves[|s.store.book.moves|..], k)
    requires forall i :: 0 <= i < |evs| ==> Resubscribed(Run(cfg, s, evs[..i]).store.book, evs[i]) != Some(k)
    ensures CodeOf(Run(cfg, s, evs).store.book, k) == CodeOf(s.store.book, k)
    ensures MovedAt(Run(cfg, s, evs).store.book, k) == MovedAt(s.store.book, k)
  {
    hide Step, Resubscribed, CodeOf, MovedAt;
    if evs != [] {
      var n := |evs| - 1;
      var mid := Run(cfg, s, evs[..n]);
      var base := |s.store.book.moves|;
      MovesGrow(cfg, s, evs[..n]);
      StepMoves(cfg, mid, evs[n]);
      var before, after := mid.store.book, Run(cfg, s, evs).store.book;
      assert forall j :: base <= j < |before.moves| ==> after.moves[base..][j - base] == before.moves[j];
      assert !MovedIn(before.moves[base..], k);
      assert forall i :: 0 <= i < n ==> evs[..n][..i] == evs[..i];
      OwnerKeeps(cfg, s, evs[..n], k);
      if |after.moves| > |before.moves| {
        assert after.moves[base..][|before.moves| - base] == after.moves[|before.moves|];
      }
    }
  }

  /** The latest audited move of a subscription. */
  function LastMove(moves: seq<Move>, k: SubId): Option<Move> {
    if moves == [] then None
    else if moves[|moves| - 1].id == k then Some(moves[|moves| - 1])
    else LastMove(moves[..|moves| - 1], k)
  }

  function At(m: Option<Move>): Option<int> {
    if m.Some? then Some(m.value.at) else None
  }

  /** Any two consecutive moves of one subscription, the later by its user, are 30 days apart. */
  predicate Spaced(moves: seq<Move>) {
    forall j :: 0 <= j < |moves| && moves[j].actor == User ==>
      var last := LastMove(moves[..j], moves[j].id);
      last.Some? ==> moves[j].at >= last.value.at + TRANSFER_INTERVAL_S
  }

  /** The clock in the table is the audit log's. */
  ghost predicate ClockIsAudited(book: Book) {
    forall k :: MovedAt(book, k) == At(LastMove(book.moves, k))
  }

  lemma StepKeepsSpacing(before: Book, after: Book, but: Option<SubId>)
    requires Spaced(before.moves) && ClockIsAudited(before)
    requires Still(before, after, but) || MovesOne(before, after)
    ensures Spaced(after.moves) && ClockIsAudited(after)
  {
    hide MovedAt, CodeOf;
    if |after.moves| > |before.moves| {
      var n := |before.moves|;
      var m := after.moves[n];
      assert after.moves == before.moves + [m];
      assert forall j :: 0 <= j <= n ==> after.moves[..j] == before.moves[..j];
      assert MovedAt(before, m.id) == At(LastMove(before.moves, m.id));
      assert after.moves[..|after.moves| - 1] == before.moves;
    }
  }

  /** Over every run from an empty database: a user's move comes at least 30 days after the move
      before it, whoever made that one. */
  lemma {:induction false} UserMovesAreSpaced(cfg: Config, db: Db, evs: seq<Event>)
    ensures var end := Run(cfg, State(Store(Book(map[], map[], []), db), multiset{}), evs).store.book;
            Spaced(end.moves) && ClockIsAudited(end)
  {
    hide Step;
    var start := State(Store(Book(map[], map[], []), db), multiset{});
    if evs != [] {
      var n := |evs| - 1;
      UserMovesAreSpaced(cfg, db, evs[..n]);
      var mid := Run(cfg, start, evs[..n]);
      StepMoves(cfg, mid, evs[n]);
      StepKeepsSpacing(mid.store.book, Step(cfg, mid, evs[n]).state.store.book, Resubscribed(mid.store.book, evs[n]));
    }
  }

  // ---------------------------------------------------------------- who is paid

  /** The one exception: a fresh purchase verified by its buyer takes the subscription over. */
  lemma FreshPurchaseTakesOver(cfg: A.Config, st: Store, code: Code, expected: string, txn: A.Txn, sandbox: bool)
    requires A.Verify(cfg, st, code, expected, Some(txn), sandbox).reply.Credited?
    ensures var k, after := A.Id(txn.original), A.Verify(cfg, st, code, expected, Some(txn), sandbox).st.book;
            var at := MovedAt(st.book, k);
            CodeOf(after, k) == if at.Some? && !A.BoughtSince(txn, at.value) then CodeOf(st.book, k) else Some(code)
  {
    hide A.AfterSettle, GrantAnswer, A.Probes, A.DaysForProduct, A.BoughtSince;
    var mapped := A.TokenMapped(st, expected, code);
    PurchaserOwns(st.book, txn, code);
    var owner: Code := A.OwnerOf(st.book.subs, txn, Some(code)).value;
    SettleBinds(cfg, mapped, owner, txn, sandbox, A.DaysForProduct(cfg, txn.productId).value, A.Id(txn.original));
  }

  /** A move binds its target at once. */
  lemma AppleMoveBinds(cfg: A.Config, st: Store, now: nat, code: Code, original: string, plan: Plan, expiresMs: int,
                       sandbox: bool, actor: Actor)
    ensures CodeOf(A.AfterMove(cfg, st, now, code, original, plan, expiresMs, sandbox, actor).book, A.Id(original)) == Some(code)
  {
    hide AfterGrant, A.MoveDays, A.MoveKey;
  }

  /** What Apple's notifications queue goes to the code the subscription is bound to afterwards. */
  lemma RenewalPaysOwner(cfg: A.Config, st: Store, txn: A.Txn, sandbox: bool)
    requires A.Notify(cfg, st, A.GrantNotice, Some(txn), sandbox).reply.Credited?
    requires A.Notify(cfg, st, A.GrantNotice, Some(txn), sandbox).reply.grant == Some(Queued)
    ensures var after := A.Notify(cfg, st, A.GrantNotice, Some(txn), sandbox).st;
            && st.db.nextId in after.db.payments
            && Some(after.db.payments[st.db.nextId].code) == CodeOf(after.book, A.Id(txn.original))
    ensures var at := MovedAt(st.book, A.Id(txn.original));
            at.Some? && !A.BoughtSince(txn, at.value) ==>
              Some(A.Notify(cfg, st, A.GrantNotice, Some(txn), sandbox).st.db.payments[st.db.nextId].code)
              == CodeOf(st.book, A.Id(txn.original))
  {
    hide AfterGrant, GrantAnswer, A.Probes, A.DaysForProduct, A.BoughtSince, Upserted, ExpiryNoted, MovedAt, CodeOf, A.OwnerOf;
    var k, tokens := A.Id(txn.original), st.book.tokens;
    var purchaser := if txn.token.Some? && txn.token.value != "" && txn.token.value in tokens
                     then Some(tokens[txn.token.value]) else None;
    var owner: Code := A.OwnerOf(st.book.subs, txn, purchaser).value;
    var days := A.DaysForProduct(cfg, txn.productId).value;
    if MovedAt(st.book, k).Some? {
      OwnerOfMoved(st.book, txn, purchaser);
    }
    SettleBinds(cfg, st, owner, txn, sandbox, days, k);
    GrantQueuesOnce(st.db, cfg.price, Apple, txn.id, owner, days);
    GrantQueuesOnce(st.db, cfg.price, Apple, "sandbox:" + txn.original, owner, cfg.sandboxGrantDays);
  }

  lemma {:induction false} ResubscribedIsApple(book: Book, ev: Event)
    ensures Resubscribed(book, ev).Some? ==> Resubscribed(book, ev).value.rail == Apple
  {
    if ev.Interrupted? { ResubscribedIsApple(book, ev.call); }
  }

  /** A Google subscription that was ever moved belongs to the target of its last audited move, over
      every run. */
  lemma {:induction false} OwnerIsLastMoved(cfg: Config, s: State, evs: seq<Event>, token: string)
    requires MovedAt(s.store.book, G.Id(token)).Some?
    ensures var k, base := G.Id(token), |s.store.book.moves|;
            var after := Run(cfg, s, evs).store.book;
            && MovedAt(after, k).Some? && base <= |after.moves|
            && var m := LastMove(after.moves[base..], k);
               CodeOf(after, k) == if m.Some? then Some(m.value.target) else CodeOf(s.store.book, k)
  {
    hide Step, CodeOf, MovedAt, Resubscribed, LastMove, Still, MovesOne;
    if evs == [] {
      NoMoves(s.store.book.moves, G.Id(token));
    } else {
      var n := |evs| - 1;
      var mid := Run(cfg, s, evs[..n]);
      OwnerIsLastMoved(cfg, s, evs[..n], token);
      StepMoves(cfg, mid, evs[n]);
      ResubscribedIsApple(mid.store.book, evs[n]);
      NextMove(s.store.book, mid.store.book, Run(cfg, s, evs).store.book, Resubscribed(mid.store.book, evs[n]), G.Id(token));
    }
  }

  lemma NoMoves(moves: seq<Move>, k: SubId)
    ensures LastMove(moves[|moves|..], k) == None
  {
  }

  lemma NextMove(start: Book, before: Book, after: Book, but: Option<SubId>, k: SubId)
    requires |start.moves| <= |before.moves| && MovedAt(before, k).Some? && but != Some(k)
    requires Still(before, after, but) || MovesOne(before, after)
    requires var m := LastMove(before.moves[|start.moves|..], k);
             CodeOf(before, k) == if m.Some? then Some(m.value.target) else CodeOf(start, k)
    ensures MovedAt(after, k).Some? && |start.moves| <= |after.moves|
    ensures var m := LastMove(after.moves[|start.moves|..], k);
            CodeOf(after, k) == if m.Some? then Some(m.value.target) else CodeOf(start, k)
  {
    hide CodeOf, MovedAt;
    if |after.moves| > |before.moves| {
      var part, m := before.moves[|start.moves|..], after.moves[|before.moves|];
      assert after.moves[|start.moves|..] == part + [m];
      assert (part + [m])[..|part + [m]| - 1] == part;
    }
  }

  /** A settle on Google starts by binding the code it will pay. */
  lemma GoogleSettleBinds(cfg: G.Config, st: Store, code: string, token: string, play: G.Play, requireMatch: bool)
    requires G.Verify(cfg, st, code, token, play, requireMatch).reply.Bound?
    ensures var e := G.Verify(cfg, st, code, token, play, requireMatch);
            && CodeOf(e.st.book, G.Id(token)) == Some(e.reply.code)
            && (MovedAt(st.book, G.Id(token)).Some? ==> CodeOf(st.book, G.Id(token)) == Some(e.reply.code))
  {
    hide ValidCode, G.DaysForBasePlan;
  }

  /** The statements a step makes to the subscriptions. */
  ghost function BookWrites(cfg: Config, s: State, ev: Event): seq<W.Write> {
    if IsCall(ev) then Writes(cfg, s.store, ev)
    else if ev.Interrupted? then
      var ws := Writes(cfg, s.store, ev.call);
      ws[..Min(ev.writes, |ws|)]
    else if ev.NoticeResumes? && Lookup(ev.token, ev.code) in s.flights then
      W.GoogleVerify(cfg.google, s.store, ev.code, ev.token, ev.play, false)
    else if ev.GoogleRevoked? then [W.Sets(G.Id(ev.token), Refunded)]
    else []
  }

  lemma StepIsItsWrites(cfg: Config, s: State, ev: Event)
    ensures Step(cfg, s, ev).state.store.book == W.AllWritten(s.store, BookWrites(cfg, s, ev)).book
  {
    hide A.Verify, A.Claim, A.Rebind, A.Notify, G.Verify, G.Claim, G.Rebind, G.Credit, G.NoticeCode, StatusSet, QueueStep, Writes,
      W.AllWritten, W.GoogleVerify;
    W.UpToOne(s.store, BookWrites(cfg, s, ev));
    if IsCall(ev) {
      CallIsItsWrites(cfg, s, ev);
    } else if ev.NoticeResumes? {
      NoticeIsItsWrites(cfg.google, s.store, ev.code, ev.token, ev.play);
    } else if ev.SettleResumes? {
      CreditBindsNothing(cfg.google, s.store, ev.code, ev.token, ev.facts);
    }
  }

  /** The code the last of these statements to bind k binds it to. */
  function LastBound(ws: seq<W.Write>, k: SubId): Option<Code> {
    if ws == [] then None
    else
      var w := ws[|ws| - 1];
      if (w.Upserts? || w.Rebinds?) && w.id == k then Some(w.code) else LastBound(ws[..|ws| - 1], k)
  }

  lemma WriteBinds(st: Store, w: W.Write, k: SubId)
    ensures CodeOf(W.Written(st, w).book, k) == if (w.Upserts? || w.Rebinds?) && w.id == k then Some(w.code) else CodeOf(st.book, k)
  {
    hide AfterGrant;
  }

  lemma {:induction false} WritesBind(st: Store, ws: seq<W.Write>, k: SubId)
    ensures CodeOf(W.AllWritten(st, ws).book, k)
         == var last := LastBound(ws, k); if last.Some? then Some(last.value) else CodeOf(st.book, k)
  {
    hide W.Written, CodeOf;
    if ws != [] {
      WritesBind(st, ws[..|ws| - 1], k);
      WriteBinds(W.AllWritten(st, ws[..|ws| - 1]), ws[|ws| - 1], k);
    }
  }

  ghost function BoundDuring(cfg: Config, s: State, evs: seq<Event>, k: SubId): Option<Code> {
    if evs == [] then None
    else
      var n := |evs| - 1;
      var last := LastBound(BookWrites(cfg, Run(cfg, s, evs[..n]), evs[n]), k);
      if last.Some? then last else BoundDuring(cfg, s, evs[..n], k)
  }

  /** Over any run a subscription is the code's that the last statement to bind it bound it to. */
  lemma {:induction false} OwnerIsLastBound(cfg: Config, s: State, evs: seq<Event>, k: SubId)
    ensures CodeOf(Run(cfg, s, evs).store.book, k)
         == var last := BoundDuring(cfg, s, evs, k); if last.Some? then Some(last.value) else CodeOf(s.store.book, k)
  {
    hide Step, BookWrites, LastBound, CodeOf, W.AllWritten;
    if evs != [] {
      var n := |evs| - 1;
      var mid := Run(cfg, s, evs[..n]);
      OwnerIsLastBound(cfg, s, evs[..n], k);
      StepIsItsWrites(cfg, mid, evs[n]);
      WritesBind(mid.store, BookWrites(cfg, mid, evs[n]), k);
    }
  }

  /** `s` is where such a settle waits for its acknowledgement; `evs` happen meanwhile. What it then queues
      goes to the code it bound, which is the owner's exactly if the last statement meanwhile that bound the
      subscription, if any, bound it to that code. */
  lemma GoogleGrantPaysOwnerIff(cfg: Config, s: State, evs: seq<Event>, token: string, code: Code, facts: G.Facts)
    requires CodeOf(s.store.book, G.Id(token)) == Some(code)
    requires var mid := Run(cfg, s, evs);
             G.Credit(cfg.google, mid.store, code, token, facts).reply.grant == Some(Queued)
    ensures var mid := Run(cfg, s, evs);
            var after := G.Credit(cfg.google, mid.store, code, token, facts).st;
            && mid.store.db.nextId in after.db.payments && after.db.payments[mid.store.db.nextId].code == code
            && var last := BoundDuring(cfg, s, evs, G.Id(token));
               CodeOf(after.book, G.Id(token)) == Some(code) <==> last.None? || last.value == code
  {
    hide Run, AfterGrant, GrantAnswer, CodeOf, BoundDuring;
    var mid := Run(cfg, s, evs);
    OwnerIsLastBound(cfg, s, evs, G.Id(token));
    CreditBindsNothing(cfg.google, mid.store, code, token, facts);
    GrantQueuesOnce(mid.store.db, cfg.google.price, Google, facts.orderId, code, facts.days);
    GrantQueuesOnce(mid.store.db, cfg.google.price, Google, "test:" + token, code, cfg.google.testGrantDays);
  }

  /** Of a moved subscription only a further move can be that statement. */
  lemma MovedGrantPaysOwnerIff(cfg: Config, s: State, evs: seq<Event>, token: string, code: Code, facts: G.Facts)
    requires MovedAt(s.store.book, G.Id(token)).Some? && CodeOf(s.store.book, G.Id(token)) == Some(code)
    ensures var mid := Run(cfg, s, evs).store.book;
            var after := G.Credit(cfg.google, Run(cfg, s, evs).store, code, token, facts).st.book;
            && |s.store.book.moves| <= |mid.moves|
            && var m := LastMove(mid.moves[|s.store.book.moves|..], G.Id(token));
               CodeOf(after, G.Id(token)) == Some(code) <==> m.None? || m.value.target == code
  {
    hide Run, MovedAt, CodeOf, LastMove, G.Credit;
    OwnerIsLastMoved(cfg, s, evs, token);
    CreditBindsNothing(cfg.google, Run(cfg, s, evs).store, code, token, facts);
  }

  /** A support move that lands meanwhile does leave the grant with the code bound before. */
  lemma MoveMeanwhile(cfg: Config, s: State, now: nat, token: string, code: Code, other: Code, facts: G.Facts, play: G.Play)
    requires MovedAt(s.store.book, G.Id(token)).Some? && CodeOf(s.store.book, G.Id(token)) == Some(code) && other != code
    requires ValidCode(code) && !Recorded(s.store.db, Google, facts.orderId) && !facts.test
    ensures var mid := Run(cfg, s, [GoogleRebind(now, token, other, false, play)]);
            var out := G.Credit(cfg.google, mid.store, code, token, facts);
            && out.reply.grant == Some(Queued) && CodeOf(out.st.book, G.Id(token)) == Some(other)
            && mid.store.db.nextId in out.st.db.payments && out.st.db.payments[mid.store.db.nextId].code == code
  {
    hide ValidCode, Payment, Recorded;
    var evs: seq<Event> := [GoogleRebind(now, token, other, false, play)];
    assert evs[..0] == [];
    assert Run(cfg, s, evs) == Step(cfg, s, evs[0]).state;
    GrantQueuesOnce(s.store.db, cfg.google.price, Google, facts.orderId, code, facts.days);
  }

  // ---------------------------------------------------------------- one hand-over per period

  /** A transfer grant a call queues, test purchases aside: the days of the period to `target`. */
  datatype HandOver = HandOver(id: SubId, period: int, days: nat, target: string, plan: Plan)

  ghost function HandedByCall(cfg: Config, s: State, ev: Event): Option<HandOver> {
    var reply := Step(cfg, s, ev).reply;
    match ev
    case AppleClaim(_, code, _, decoded, _, _) =>
      if reply.apple.Moved? && reply.apple.grant == Some(Queued) && reply.apple.period.Some? then
        var plan := PlanFor(A.DaysForProduct(cfg.apple, decoded.value.productId).value);
        Some(HandOver(A.Id(decoded.value.original), reply.apple.period.value, reply.apple.days, code, plan))
      else None
    case AppleRebind(_, original, code, _) =>
      if reply.apple.Moved? && reply.apple.grant == Some(Queued) && reply.apple.period.Some? then
        Some(HandOver(A.Id(original), reply.apple.period.value, reply.apple.days, code, s.store.book.subs[A.Id(original)].plan))
      else None
    case GoogleClaim(_, code, token, play, _) =>
      if reply.google.Moved? && reply.google.grant == Some(Queued) && reply.google.period.Some? then
        Some(HandOver(G.Id(token), reply.google.period.value, reply.google.days, code, G.PeriodFacts(cfg.google, play).facts.plan))
      else None
    case GoogleRebind(_, token, code, _, play) =>
      if reply.google.Moved? && reply.google.grant == Some(Queued) && reply.google.period.Some? then
        Some(HandOver(G.Id(token), reply.google.period.value, reply.google.days, code, G.PeriodFacts(cfg.google, play).facts.plan))
      else None
    case _ => None
  }

  /** The grant is among a call's first n statements. */
  ghost predicate Paid(ws: seq<W.Write>, n: nat) {
    exists j :: 0 <= j < n && j < |ws| && ws[j].Records?
  }

  ghost function Handed(cfg: Config, s: State, ev: Event): Option<HandOver> {
    if !ev.Interrupted? then HandedByCall(cfg, s, ev)
    else if Paid(Writes(cfg, s.store, ev.call), ev.writes) then HandedByCall(cfg, s, ev.call)
    else None
  }

  /** Before, the period had not been handed over; after, it has, in whole days of the plan, to the target. */
  ghost predicate HandsOver(before: Db, after: Db, h: HandOver) {
    && h.period > 0
    && !Recorded(before, h.id.rail, TransferKey(h.id.external, h.period))
    && Recorded(after, h.id.rail, TransferKey(h.id.external, h.period))
    && 1 <= h.days <= PlanDays(h.plan)
    && before.nextId in after.payments
    && after.payments[before.nextId].days == h.days && after.payments[before.nextId].code == h.target
  }

  /** The subscription is the target's, under the plan the days are of. */
  ghost predicate Arrived(book: Book, h: HandOver) {
    h.id in book.subs && book.subs[h.id].code == h.target && book.subs[h.id].plan == h.plan
  }

  lemma AppleHandsOver(cfg: A.Config, st: Store, now: nat, code: Code, original: string, plan: Plan, expiresMs: int,
                       sandbox: bool, actor: Actor)
    requires var reply := A.MoveReply(cfg, st, now, code, original, plan, expiresMs, sandbox);
             reply.grant == Some(Queued) && reply.period.Some?
    ensures var reply := A.MoveReply(cfg, st, now, code, original, plan, expiresMs, sandbox);
            var after := A.AfterMove(cfg, st, now, code, original, plan, expiresMs, sandbox, actor);
            var h := HandOver(A.Id(original), reply.period.value, reply.days, code, plan);
            HandsOver(st.db, after.db, h) && Arrived(after.book, h)
  {
    hide AfterGrant, GrantAnswer, RemainingDays, TransferKey, Recorded;
    RemainingDaysCover(expiresMs, now, plan);
    GrantQueuesOnce(st.db, cfg.price, Apple, A.MoveKey(cfg, original, expiresMs, sandbox), code,
                    A.MoveDays(cfg, now, plan, expiresMs, sandbox));
  }

  lemma GoogleHandsOver(cfg: G.Config, st: Store, now: nat, code: Code, token: string, facts: G.Facts, actor: Actor)
    requires var reply := G.MoveReply(cfg, st, now, code, token, facts);
             reply.grant == Some(Queued) && reply.period.Some?
    ensures var reply := G.MoveReply(cfg, st, now, code, token, facts);
            var after := G.AfterMove(cfg, st, now, code, token, facts, actor);
            var h := HandOver(G.Id(token), reply.period.value, reply.days, code, facts.plan);
            HandsOver(st.db, after.db, h) && Arrived(after.book, h)
  {
    hide AfterGrant, GrantAnswer, RemainingDays, TransferKey, Recorded;
    RemainingDaysCover(facts.expiryMs.value, now, facts.plan);
    GrantQueuesOnce(st.db, cfg.price, Google, G.MoveKey(cfg, token, facts), code, G.MoveDays(cfg, now, facts));
  }

  lemma CallHandsOver(cfg: Config, s: State, ev: Event)
    requires HandedByCall(cfg, s, ev).Some?
    ensures var after, h := Step(cfg, s, ev).state.store, HandedByCall(cfg, s, ev).value;
            HandsOver(s.store.db, after.db, h) && Arrived(after.book, h)
  {
    hide A.AfterSettle, A.SettleReply, A.AfterMove, A.MoveReply, G.AfterMove, G.MoveReply, GrantAnswer, A.OwnerOf, A.BoughtSince,
      A.DaysForProduct, A.Purchaser, TransferAvailableAt, HandsOver, Arrived, Rebound, Upserted, ValidCode, G.DaysForBasePlan;
    var st := s.store;
    match ev
    case AppleClaim(now, code, expected, decoded, sandbox, transfer) =>
      var txn := decoded.value;
      var plan := PlanFor(A.DaysForProduct(cfg.apple, txn.productId).value);
      var mapped := A.TokenMapped(st, expected, code);
      SettleNeverMoves(cfg.apple, mapped, code, txn, sandbox, A.DaysForProduct(cfg.apple, txn.productId).value);
      AppleHandsOver(cfg.apple, mapped, now, code, txn.original, plan, txn.expiresMs.value, sandbox, User);
    case AppleRebind(now, original, code, _) =>
      var known := st.book.subs[A.Id(original)];
      AppleHandsOver(cfg.apple, st, now, code, original, known.plan, known.expiresMs.value, known.sandbox == Some(true), Admin);
    case GoogleClaim(now, code, token, play, _) =>
      GoogleHandsOver(cfg.google, st, now, code, token, G.PeriodFacts(cfg.google, play).facts, User);
    case GoogleRebind(now, token, code, _, play) =>
      GoogleHandsOver(cfg.google, st, now, code, token, G.PeriodFacts(cfg.google, play).facts, Admin);
  }

  lemma SettleNeverMoves(cfg: A.Config, st: Store, code: Code, txn: A.Txn, sandbox: bool, days: nat)
    ensures A.SettleReply(cfg, st, code, txn, sandbox, days).Credited?
  {
    hide GrantAnswer;
  }

  // ---------------------------------------------------------------- the same of a call cut short

  /** Of a call's statements at most one touches the queue. */
  ghost predicate PaysOnce(ws: seq<W.Write>) {
    forall i, j :: 0 <= i < j < |ws| ==> !(ws[i].Records? && ws[j].Records?)
  }

  lemma CallPaysOnce(cfg: Config, st: Store, call: Event)
    ensures PaysOnce(Writes(cfg, st, call))
  {
    hide A.Verify, A.Claim, A.Rebind, A.Notify, G.Verify, G.Claim, G.Rebind, A.OwnerOf, A.DaysForProduct, G.PeriodFacts,
      W.AppleSettle, W.AppleMove, W.GoogleMove;
  }

  /** The statements after the grant leave the queue alone. */
  lemma {:induction false} QueueStays(st: Store, ws: seq<W.Write>, n: nat)
    requires n <= |ws| && forall j :: n <= j < |ws| ==> !ws[j].Records?
    ensures W.AllWritten(st, ws).db == W.AllWritten(st, ws[..n]).db
    decreases |ws|
  {
    hide AfterGrant, Upserted, Rebound, ExpiryNoted, StatusSet;
    if n == |ws| {
      assert ws[..n] == ws;
    } else {
      QueueStays(st, ws[..|ws| - 1], n);
      assert ws[..|ws| - 1][..n] == ws[..n];
    }
  }

  /** A hand-over is the first of its period, of 1 day up to the plan's, to the call's code; unless the
      process died before it, the subscription is that code's as well. */
  lemma StepHandsOver(cfg: Config, s: State, ev: Event)
    requires Handed(cfg, s, ev).Some?
    ensures HandsOver(s.store.db, Step(cfg, s, ev).state.store.db, Handed(cfg, s, ev).value)
    ensures !ev.Interrupted? ==> Arrived(Step(cfg, s, ev).state.store.book, Handed(cfg, s, ev).value)
  {
    hide HandedByCall, HandsOver, Arrived, Writes, W.AllWritten, A.Verify, A.Claim, A.Rebind, A.Notify, G.Verify, G.Claim, G.Rebind,
      G.Credit, PaysOnce;
    if !ev.Interrupted? {
      CallHandsOver(cfg, s, ev);
    } else {
      var ws := Writes(cfg, s.store, ev.call);
      var n := Min(ev.writes, |ws|);
      OnlyCallsHandOver(cfg, s, ev.call);
      CallHandsOver(cfg, s, ev.call);
      CallIsItsWrites(cfg, s, ev.call);
      CallPaysOnce(cfg, s.store, ev.call);
      PaidOnce(ws, n);
      QueueStays(s.store, ws, n);
    }
  }

  lemma PaidOnce(ws: seq<W.Write>, n: nat)
    requires PaysOnce(ws) && Paid(ws, n)
    ensures forall j :: n <= j < |ws| ==> !ws[j].Records?
  {
  }

  lemma OnlyCallsHandOver(cfg: Config, s: State, ev: Event)
    ensures HandedByCall(cfg, s, ev).Some? ==> IsCall(ev)
  {
    hide Step;
  }

  /** After a transfer died between its grant and its rebind, the same or any other transfer of that period
      moves the subscription and pays nothing more: a retry ends as the first call would have, and the days
      are the first caller's whoever gets the subscription. */
  lemma AppleRetry(cfg: A.Config, st: Store, now: nat, code: Code, original: string, plan: Plan, expiresMs: int, sandbox: bool, actor: Actor)
    requires ValidCode(code) && Recorded(st.db, Apple, A.MoveKey(cfg, original, expiresMs, sandbox))
    ensures var after := A.AfterMove(cfg, st, now, code, original, plan, expiresMs, sandbox, actor);
            && after.db == st.db && CodeOf(after.book, A.Id(original)) == Some(code)
            && A.MoveReply(cfg, st, now, code, original, plan, expiresMs, sandbox).grant != Some(Queued)
  {
    hide AfterGrant, GrantAnswer, A.MoveDays, A.MoveKey;
    AppleMoveBinds(cfg, st, now, code, original, plan, expiresMs, sandbox, actor);
    RecordedIsNotQueued(st.db, Apple, A.MoveKey(cfg, original, expiresMs, sandbox), code);
    GrantQueuesOnce(st.db, cfg.price, Apple, A.MoveKey(cfg, original, expiresMs, sandbox), code, A.MoveDays(cfg, now, plan, expiresMs, sandbox));
  }

  lemma GoogleRetry(cfg: G.Config, st: Store, now: nat, code: Code, token: string, facts: G.Facts, actor: Actor)
    requires ValidCode(code) && Recorded(st.db, Google, G.MoveKey(cfg, token, facts))
    ensures var after := G.AfterMove(cfg, st, now, code, token, facts, actor);
            && after.db == st.db && CodeOf(after.book, G.Id(token)) == Some(code)
            && G.MoveReply(cfg, st, now, code, token, facts).grant != Some(Queued)
  {
    hide AfterGrant, GrantAnswer, G.MoveDays, G.MoveKey;
    RecordedIsNotQueued(st.db, Google, G.MoveKey(cfg, token, facts), code);
    GrantQueuesOnce(st.db, cfg.price, Google, G.MoveKey(cfg, token, facts), code, G.MoveDays(cfg, now, facts));
  }

  lemma RecordedIsNotQueued(db: Db, rail: Rail, key: string, code: string)
    requires Recorded(db, rail, key)
    ensures GrantAnswer(db, rail, key, code) != Queued
  {
  }

  // ---------------------------------------------------------------- no key is lost

  lemma {:induction false} WritesKeepKeys(st: Store, ws: seq<W.Write>)
    requires IdsBelow(st.db)
    ensures KeysKept(st.db, W.AllWritten(st, ws).db) && IdsBelow(W.AllWritten(st, ws).db)
  {
    hide AfterGrant, Recorded, IdsBelow, Upserted, Rebound, ExpiryNoted, StatusSet;
    if ws != [] {
      var n := |ws| - 1;
      WritesKeepKeys(st, ws[..n]);
      var mid, w := W.AllWritten(st, ws[..n]), ws[n];
      if w.Records? { GrantKeepsKeys(mid.db, w.price, w.rail, w.key, w.payee, w.days); }
    }
  }

  lemma CreditKeepsKeys(cfg: G.Config, st: Store, code: Code, token: string, facts: G.Facts)
    requires IdsBelow(st.db)
    ensures KeysKept(st.db, G.Credit(cfg, st, code, token, facts).st.db) && IdsBelow(G.Credit(cfg, st, code, token, facts).st.db)
  {
    hide AfterGrant, GrantAnswer, Recorded, IdsBelow;
    GrantKeepsKeys(st.db, cfg.price, Google, facts.orderId, code, facts.days);
    GrantKeepsKeys(st.db, cfg.price, Google, "test:" + token, code, cfg.testGrantDays);
  }

  lemma VerifyQueuesNothing(cfg: G.Config, st: Store, code: string, token: string, play: G.Play, requireMatch: bool)
    ensures G.Verify(cfg, st, code, token, play, requireMatch).st.db == st.db
  {
    hide ValidCode, Upserted, G.DaysForBasePlan;
  }

  /** No step loses a recorded key. */
  lemma StepKeepsKeys(cfg: Config, s: State, ev: Event)
    requires IdsBelow(s.store.db)
    ensures KeysKept(s.store.db, Step(cfg, s, ev).state.store.db) && IdsBelow(Step(cfg, s, ev).state.store.db)
  {
    hide A.Verify, A.Claim, A.Rebind, A.Notify, G.Verify, G.Claim, G.Rebind, G.Credit, G.NoticeCode, StatusSet, Recorded, IdsBelow,
      Writes, W.AllWritten;
    var st := s.store;
    if IsCall(ev) {
      CallIsItsWrites(cfg, s, ev);
      WritesKeepKeys(st, Writes(cfg, st, ev));
    } else if ev.Interrupted? {
      var ws := Writes(cfg, st, ev.call);
      WritesKeepKeys(st, ws[..Min(ev.writes, |ws|)]);
    } else if ev.NoticeResumes? {
      VerifyQueuesNothing(cfg.google, st, ev.code, ev.token, ev.play, false);
    } else if ev.SettleResumes? {
      CreditKeepsKeys(cfg.google, st, ev.code, ev.token, ev.facts);
    }
  }

  lemma {:induction false} RunKeepsKeys(cfg: Config, s: State, evs: seq<Event>)
    requires IdsBelow(s.store.db)
    ensures KeysKept(s.store.db, Run(cfg, s, evs).store.db) && IdsBelow(Run(cfg, s, evs).store.db)
  {
    hide Step, Recorded, IdsBelow;
    if evs != [] {
      var n := |evs| - 1;
      RunKeepsKeys(cfg, s, evs[..n]);
      StepKeepsKeys(cfg, Run(cfg, s, evs[..n]), evs[n]);
    }
  }

  lemma {:induction false} RunSplits(cfg: Config, s: State, evs: seq<Event>, i: nat)
    requires i <= |evs|
    ensures Run(cfg, s, evs) == Run(cfg, Run(cfg, s, evs[..i]), evs[i..])
  {
    hide Step;
    if i == |evs| {
      assert evs[..i] == evs && evs[i..] == [];
    } else {
      var n := |evs| - 1;
      RunSplits(cfg, s, evs[..n], i);
      assert evs[..n][..i] == evs[..i] && evs[..n][i..] == evs[i..][..|evs[i..]| - 1];
    }
  }

  /** Each (subscription, period end) is handed over at most once in any run, support rebinds and calls
      cut short included, whatever the clock, the interval or the order of calls. */
  lemma HandedOverOnce(cfg: Config, s: State, evs: seq<Event>, i: nat, j: nat)
    requires IdsBelow(s.store.db) && i < j < |evs|
    requires Handed(cfg, Run(cfg, s, evs[..i]), evs[i]).Some? && Handed(cfg, Run(cfg, s, evs[..j]), evs[j]).Some?
    ensures var a, b := Handed(cfg, Run(cfg, s, evs[..i]), evs[i]).value, Handed(cfg, Run(cfg, s, evs[..j]), evs[j]).value;
            a.id != b.id || a.period != b.period
  {
    hide Step, Recorded, IdsBelow, Handed;
    var x, y := Run(cfg, s, evs[..i]), Run(cfg, s, evs[..j]);
    StepHandsOver(cfg, x, evs[i]);
    StepHandsOver(cfg, y, evs[j]);
    assert evs[..i + 1][..i] == evs[..i] && Run(cfg, s, evs[..i + 1]) == Step(cfg, x, evs[i]).state;
    RunSplits(cfg, s, evs[..j], i + 1);
    assert evs[..j][..i + 1] == evs[..i + 1];
    RunKeepsKeys(cfg, s, evs[..i + 1]);
    RunKeepsKeys(cfg, Run(cfg, s, evs[..i + 1]), evs[..j][i + 1..]);
  }
}
