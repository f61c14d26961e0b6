/** The bridge's queue: the payments and spent_outpoints tables (bridge/src/db/payments.ts) and the
    two loops that drain it (bridge/src/worker/broadcaster.ts, bridge/src/worker/confirmer.ts). */
module Payments {
  import opened Arithmetic
  import opened Common
  import opened PriceSchedule
  import opened GrantRules
  import opened PaymentCodes
  import opened Treasury

  /** Blocks past expiry before a positively absent transaction is declared dead. */
  const EXPIRY_SLACK: int := 20

  datatype Rail = Stripe | Apple | Google | Voucher

  datatype Status = Pending | Broadcast | Confirmed

  datatype Row = Row(
    rail: Rail, eventKey: string, code: string, days: nat, fluxZats: int, status: Status,
    tx: Option<Spend>, raw: Option<Spend>, expiry: Option<int>, attempts: nat, nextRetryAt: int)

  datatype NewPayment = NewPayment(rail: Rail, eventKey: string, code: string, days: nat, fluxZats: int)

  /** Both tables. The spender column holds the spending transaction. */
  datatype Db = Db(payments: map<nat, Row>, spent: map<Outpoint, Spend>, nextId: nat)

  // ---------------------------------------------------------------- what each statement does

  predicate Recorded(db: Db, rail: Rail, key: string) {
    exists id :: id in db.payments && db.payments[id].rail == rail && db.payments[id].eventKey == key
  }

  /** INSERT ... ON CONFLICT (rail, event_key) DO NOTHING. */
  function Inserted(db: Db, p: NewPayment): Db {
    if Recorded(db, p.rail, p.eventKey) then db
    else db.(payments := db.payments[db.nextId :=
               Row(p.rail, p.eventKey, p.code, p.days, p.fluxZats, Pending, None, None, None, 0, 0)],
             nextId := db.nextId + 1)
  }

  predicate Due(db: Db, now: int, id: nat) {
    id in db.payments && db.payments[id].status == Pending && db.payments[id].nextRetryAt <= now
  }

  /** INSERT OR IGNORE, one outpoint after another. */
  function Held(spent: map<Outpoint, Spend>, os: seq<Outpoint>, spender: Spend): map<Outpoint, Spend> {
    if os == [] then spent
    else
      var before := Held(spent, os[..|os| - 1], spender);
      var o := os[|os| - 1];
      if o in before then before else before[o := spender]
  }

  function MarkedBroadcast(db: Db, id: nat, spend: Spend): Db {
    db.(payments := if id !in db.payments then db.payments
                    else db.payments[id := db.payments[id].(status := Broadcast, tx := Some(spend), raw := Some(spend),
                           expiry := Some(spend.expiryHeight), fluxZats := spend.amountZats)],
        spent := Held(db.spent, spend.inputs, spend))
  }

  function Released(spent: map<Outpoint, Spend>, spender: Spend): map<Outpoint, Spend> {
    map o | o in spent && spent[o] != spender :: spent[o]
  }

  function MarkedConfirmed(db: Db, id: nat): Db {
    if id !in db.payments then db
    else
      var row := db.payments[id];
      db.(payments := db.payments[id := row.(status := Confirmed, raw := None)],
          spent := if row.tx.Some? then Released(db.spent, row.tx.value) else db.spent)
  }

  function ResetToPending(db: Db, id: nat, stale: Spend): Db {
    db.(payments := if id !in db.payments then db.payments
                    else db.payments[id := db.payments[id].(status := Pending, tx := None, raw := None, expiry := None,
                           nextRetryAt := 0)],
        spent := Released(db.spent, stale))
  }

  /** Exponential backoff, one minute up to six hours. */
  function FailureRecorded(db: Db, id: nat, attempts: nat, now: int): Db {
    if id !in db.payments then db
    else db.(payments := db.payments[id := db.payments[id].(attempts := attempts + 1,
               nextRetryAt := now + Min(60 * Power(2, attempts), 6 * 3600))])
  }

  /** A failed attempt is counted, and the next waits one minute at first, twice as long after every further
      failure, never more than six hours; nothing else about the queue changes. */
  lemma Backoff(db: Db, id: nat, attempts: nat, now: int)
    requires id in db.payments
    ensures var after, again := FailureRecorded(db, id, attempts, now), FailureRecorded(db, id, attempts + 1, now);
            var wait, next := after.payments[id].nextRetryAt - now, again.payments[id].nextRetryAt - now;
            && 60 <= wait <= 21_600 && (attempts == 0 ==> wait == 60) && next == Min(2 * wait, 21_600)
            && after == db.(payments := db.payments[id := db.payments[id].(attempts := attempts + 1, nextRetryAt := now + wait)])
  {
    PowerAtLeastOne(attempts);
    assert Power(2, attempts + 1) == 2 * Power(2, attempts);
    assert attempts == 0 ==> Power(2, attempts) == 1;
    hide Power;
  }

  lemma {:induction false} PowerAtLeastOne(n: nat)
    ensures Power(2, n) >= 1
  {
    if n > 0 { PowerAtLeastOne(n - 1); }
  }

  // ---------------------------------------------------------------- the decisions of the two loops

  /** What a chain lookup can answer. */
  datatype Lookup = LookupFailed | NotFound | Found(confirmations: nat)

  datatype Fate = Confirm | Reset | Resend | Wait

  /** The confirmer's decision for one broadcast row. */
  function Judge(row: Row, tip: int, answer: Lookup): Fate {
    if row.tx.None? then Wait
    else
      match answer
      case LookupFailed => Wait
      case Found(confirmations) => if confirmations >= 1 then Confirm else Wait
      case NotFound =>
        if row.expiry.Some? && tip > row.expiry.value + EXPIRY_SLACK then Reset
        else if row.raw.Some? then Resend else Wait
  }

  function Judged(db: Db, id: nat, row: Row, tip: int, answer: Lookup): Db {
    match Judge(row, tip, answer)
    case Confirm => MarkedConfirmed(db, id)
    case Reset => ResetToPending(db, id, row.tx.value)
    case _ => db
  }

  /** The payment sized at the highest effective price the transaction can still be mined at. */
  function Sized(s: Schedule, tip: int, days: nat): nat
    requires s.Valid()
  {
    SizingPrice(s, tip);
    ZatsForDays(HighestEffective(s, tip, tip + EXPIRY_DELTA), days)
  }

  lemma SizingPrice(s: Schedule, tip: int)
    requires s.Valid()
    ensures HighestEffective(s, tip, tip + EXPIRY_DELTA) > 0
  {
    var at := HighestIsMaximum(s, tip, tip + EXPIRY_DELTA);
    PositivePrice(s, at);
  }

  /** The transaction the broadcaster builds for a row, or None when selection, the memo of an invalid
      code, or building fails. */
  function Built(db: Db, row: Row, s: Schedule, fee: int, tip: int, utxos: seq<Utxo>): Option<Spend>
    requires s.Valid()
  {
    var amount := Sized(s, tip, row.days);
    match Select(utxos, db.spent.Keys, amount + fee)
    case None => None
    case Some(inputs) =>
      match MemoForCode(row.code)
      case None => None
      case Some(memo) => BuildSpend(inputs, amount, memo, fee, tip)
  }

  /** One broadcaster tick after the chain reads: write ahead, or park the row. */
  function Settled(db: Db, id: nat, row: Row, s: Schedule, fee: int, tip: int, utxos: seq<Utxo>, now: int): Db
    requires s.Valid()
  {
    match Built(db, row, s, fee, tip, utxos)
    case None => FailureRecorded(db, id, row.attempts, now)
    case Some(spend) => MarkedBroadcast(db, id, spend)
  }

  // ---------------------------------------------------------------- the repository and its users

  class PaymentsRepo {
    var payments: map<nat, Row>
    var spent: map<Outpoint, Spend>
    var nextId: nat

    constructor ()
      ensures Tables() == Db(map[], map[], 1)
    {
      payments, spent, nextId := map[], map[], 1;
    }

    function Tables(): Db
      reads this
    {
      Db(payments, spent, nextId)
    }

    /** None for a (rail, event_key) already recorded: a duplicate delivery. */
    method InsertIdempotent(p: NewPayment) returns (id: Option<nat>)
      modifies this
      ensures Tables() == Inserted(old(Tables()), p)
      ensures id == if Recorded(old(Tables()), p.rail, p.eventKey) then None else Some(old(nextId))
    {
      if exists i :: i in payments && payments[i].rail == p.rail && payments[i].eventKey == p.eventKey {
        return None;
      }
      payments := payments[nextId := Row(p.rail, p.eventKey, p.code, p.days, p.fluxZats, Pending, None, None, None, 0, 0)];
      id := Some(nextId);
      nextId := nextId + 1;
    }

    /** The oldest pending payment whose retry time has come. */
    method NextPending(now: int) returns (id: Option<nat>)
      ensures id.Some? ==> Due(Tables(), now, id.value) && forall i: nat :: i < id.value ==> !Due(Tables(), now, i)
      ensures id.None? ==> forall i :: !Due(Tables(), now, i)
    {
      id := None;
      var left := payments.Keys;
      while left != {}
        invariant left <= payments.Keys
        invariant id.Some? ==> Due(Tables(), now, id.value)
        invariant forall i :: i in payments && i !in left && Due(Tables(), now, i) ==> id.Some? && id.value <= i
        decreases left
      {
        var i :| i in left;
        left := left - {i};
        if payments[i].status == Pending && payments[i].nextRetryAt <= now && (id.None? || i < id.value) {
          id := Some(i);
        }
      }
    }

    method MarkBroadcast(id: nat, spend: Spend)
      modifies this
      ensures Tables() == MarkedBroadcast(old(Tables()), id, spend)
    {
      if id in payments {
        payments := payments[id := payments[id].(status := Broadcast, tx := Some(spend), raw := Some(spend),
          expiry := Some(spend.expiryHeight), fluxZats := spend.amountZats)];
      }
      for k := 0 to |spend.inputs|
        invariant spent == Held(old(spent), spend.inputs[..k], spend)
        invariant payments == MarkedBroadcast(old(Tables()), id, spend).payments && nextId == old(nextId)
      {
        assert spend.inputs[..k + 1][..k] == spend.inputs[..k];
        if spend.inputs[k] !in spent {
          spent := spent[spend.inputs[k] := spend];
        }
      }
      assert spend.inputs[..|spend.inputs|] == spend.inputs;
    }

    method MarkConfirmed(id: nat)
      modifies this
      ensures Tables() == MarkedConfirmed(old(Tables()), id)
      ensures id in payments && payments[id].tx.Some? ==> payments[id].tx.value !in spent.Values
      ensures forall o :: o in old(spent) && (id in payments ==> payments[id].tx != Some(old(spent)[o])) ==> o in spent
    {
      if id in payments {
        var row := payments[id];
        payments := payments[id := row.(status := Confirmed, raw := None)];
        if row.tx.Some? {
          spent := map o | o in spent && spent[o] != row.tx.value :: spent[o];
        }
      }
    }

    method ResetExpired(id: nat, stale: Spend)
      modifies this
      ensures Tables() == ResetToPending(old(Tables()), id, stale)
      ensures stale !in spent.Values && forall o :: o in old(spent) && old(spent)[o] != stale ==> o in spent
      ensures id in payments ==> payments[id].status == Pending && payments[id].raw.None?
    {
      if id in payments {
        payments := payments[id := payments[id].(status := Pending, tx := None, raw := None, expiry := None, nextRetryAt := 0)];
      }
      spent := map o | o in spent && spent[o] != stale :: spent[o];
    }

    method RecordFailure(id: nat, attempts: nat, now: int)
      modifies this
      ensures Tables() == FailureRecorded(old(Tables()), id, attempts, now)
    {
      if id in payments {
        payments := payments[id := payments[id].(attempts := attempts + 1,
          nextRetryAt := now + Min(60 * Power(2, attempts), 6 * 3600))];
      }
    }
  }

  /** One tick of the broadcaster. `tip` and `utxos` are the chain's answers, None an error; `sent` is
      the transaction handed to the network, after it is durable. */
  method BroadcasterTick(repo: PaymentsRepo, s: Schedule, fee: int, now: int, tip: Option<int>, utxos: Option<seq<Utxo>>)
    returns (picked: Option<nat>, sent: Option<Spend>)
    requires s.Valid()
    modifies repo
    ensures picked.None? ==> repo.Tables() == old(repo.Tables()) && sent.None? && forall i :: !Due(repo.Tables(), now, i)
    ensures picked.Some? ==> Due(old(repo.Tables()), now, picked.value)
    ensures picked.Some? && (tip.None? || utxos.None?) ==>
              && sent.None?
              && repo.Tables() == FailureRecorded(old(repo.Tables()), picked.value, old(repo.payments)[picked.value].attempts, now)
    ensures picked.Some? && tip.Some? && utxos.Some? ==>
              var db, row := old(repo.Tables()), old(repo.payments)[picked.value];
              && sent == Built(db, row, s, fee, tip.value, utxos.value)
              && repo.Tables() == Settled(db, picked.value, row, s, fee, tip.value, utxos.value, now)
  {
    hide MemoForCode, HighestEffective, ZatsForDays, Select, Total, LargestFirst, Usable, Outpoints, Held, Power;
    sent := None;
    picked := repo.NextPending(now);
    if picked.None? {
      return;
    }
    var id := picked.value;
    var row := repo.payments[id];
    if tip.None? || utxos.None? {
      repo.RecordFailure(id, row.attempts, now);
      return;
    }
    var price := MaxEffective(s, tip.value, tip.value + EXPIRY_DELTA);
    SizingPrice(s, tip.value);
    var amount := ZatsForDays(price, row.days);
    var sel, total := SelectUtxos(utxos.value, repo.spent.Keys, amount + fee);
    if sel.None? {
      repo.RecordFailure(id, row.attempts, now);
      return;
    }
    var memo := MemoForCode(row.code);
    if memo.None? {
      repo.RecordFailure(id, row.attempts, now);
      return;
    }
    // The selection covers amount and fee, so building cannot fail.
    var spend := BuildSpend(sel.value, amount, memo.value, fee, tip.value);
    repo.MarkBroadcast(id, spend.value);
    sent := spend;
  }

  /** The rows of a sweep, judged one after another against the answers given. */
  function Swept(db: Db, ids: seq<nat>, rows: seq<Row>, tip: int, answers: seq<Lookup>): Db
    requires |ids| == |rows| == |answers|
  {
    if ids == [] then db
    else
      var n := |ids| - 1;
      Judged(Swept(db, ids[..n], rows[..n], tip, answers[..n]), ids[n], rows[n], tip, answers[n])
  }

  /** One tick of the confirmer over the broadcast rows it read; `resent` are the persisted bytes it
      pushes again. */
  method ConfirmerTick(repo: PaymentsRepo, ids: seq<nat>, rows: seq<Row>, tip: int, answers: seq<Lookup>)
    returns (resent: seq<Spend>)
    requires |ids| == |rows| == |answers|
    modifies repo
    ensures repo.Tables() == Swept(old(repo.Tables()), ids, rows, tip, answers)
    ensures forall k :: 0 <= k < |rows| && Judge(rows[k], tip, answers[k]) == Resend ==> rows[k].raw.value in resent
    ensures forall x :: x in resent ==> exists k :: 0 <= k < |rows| && Judge(rows[k], tip, answers[k]) == Resend && rows[k].raw == Some(x)
  {
    resent := [];
    for k := 0 to |ids|
      invariant repo.Tables() == Swept(old(repo.Tables()), ids[..k], rows[..k], tip, answers[..k])
      invariant forall j :: 0 <= j < k && Judge(rows[j], tip, answers[j]) == Resend ==> rows[j].raw.value in resent
      invariant forall x :: x in resent ==> exists j :: 0 <= j < k && Judge(rows[j], tip, answers[j]) == Resend && rows[j].raw == Some(x)
    {
      SweptNext(old(repo.Tables()), ids, rows, tip, answers, k);
      var row, answer := rows[k], answers[k];
      if row.tx.None? || answer.LookupFailed? {
        continue;
      }
      if answer.Found? && answer.confirmations >= 1 {
        repo.MarkConfirmed(ids[k]);
      } else if answer.NotFound? {
        if row.expiry.Some? && tip > row.expiry.value + EXPIRY_SLACK {
          repo.ResetExpired(ids[k], row.tx.value);
        } else if row.raw.Some? {
          resent := resent + [row.raw.value];
        }
      }
    }
    assert ids[..|ids|] == ids && rows[..|ids|] == rows && answers[..|ids|] == answers;
  }

  lemma SweptNext(db: Db, ids: seq<nat>, rows: seq<Row>, tip: int, answers: seq<Lookup>, k: nat)
    requires |ids| == |rows| == |answers| && k < |ids|
    ensures Swept(db, ids[..k + 1], rows[..k + 1], tip, answers[..k + 1])
         == Judged(Swept(db, ids[..k], rows[..k], tip, answers[..k]), ids[k], rows[k], tip, answers[k])
  {
    assert ids[..k + 1][..k] == ids[..k] && rows[..k + 1][..k] == rows[..k] && answers[..k + 1][..k] == answers[..k];
  }
}
