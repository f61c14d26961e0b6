/** The bridge's settlement as a state machine: the queue's tables, the two loops interleaved at every
    await, crashes, and a network that may mine any transaction ever built until it expires. */
module Settlement {
  import opened Arithmetic
  import opened Common
  import opened PriceSchedule
  import opened GrantRules
  import opened PaymentCodes
  import opened PaymentFold
  import opened Treasury
  import opened Payments

  /** The fee, and the price schedules of the deployments a run goes through, in order. */
  datatype Config = Config(scheds: seq<Schedule>, fee: int) {
    predicate Valid() {
      scheds != [] && forall e :: 0 <= e < |scheds| ==> scheds[e].Valid()
    }

    function Sched(epoch: nat): (s: Schedule)
      requires Valid()
      ensures s.Valid()
    {
      if epoch < |scheds| then scheds[epoch] else scheds[0]
    }
  }

  /** One row as the confirmer read it. */
  datatype ReadRow = ReadRow(id: nat, row: Row)

  datatype World = World(
    db: Db,
    tip: int,                      // the real chain height
    built: set<(nat, Spend)>,      // every transaction ever built, with the payment it was built for
    mined: map<Spend, int>,        // those mined, with their heights
    epoch: nat,                    // the deployment running
    picked: Option<nat>,           // the row the broadcaster holds across its chain reads
    sweep: seq<ReadRow>,           // the rows the confirmer still has to judge this tick
    sweepTip: Option<int>)         // the height it judges them by

  datatype Step =
    | Insert(p: NewPayment)
    | Pick(now: int, id: nat)                                 // the broadcaster reads its next row
    | ReadsFail(now: int)                                     // its chain reads fail
    | WriteAhead(reported: int, utxos: seq<Utxo>, now: int)   // sizing, selection, write-ahead
    | StartSweep(ids: seq<nat>)                               // the confirmer reads the broadcast rows
    | ReadTip(reported: int)
    | JudgeNext(answer: Lookup)                               // one lookup answered and acted on
    | Mine(spend: Spend)                                      // a block with one of our transactions
    | EmptyBlock
    | Crash                                                   // everything not in the tables is lost
    | Reprice                                                 // a restart under the next price schedule

  predicate BroadcastRow(db: Db, id: nat) {
    id in db.payments && db.payments[id].status == Broadcast
  }

  /** Which steps can happen. Two assumptions on the chain's answers: a reported tip never exceeds the
      real one, and a lookup's positive answer is true, a not-found at least once the reported tip is
      more than EXPIRY_SLACK past expiry. */
  ghost predicate Enabled(c: Config, w: World, step: Step) {
    match step
    case Insert(p) => true
    case Pick(now, id) => w.picked.None? && Due(w.db, now, id) && forall i :: i in w.db.payments && Due(w.db, now, i) ==> id <= i
    case ReadsFail(now) => w.picked.Some?
    case WriteAhead(reported, utxos, now) => w.picked.Some? && reported <= w.tip
    case StartSweep(ids) =>
      && w.sweep == []
      && (forall i :: 0 <= i < |ids| ==> BroadcastRow(w.db, ids[i]))
      && (forall i, j :: 0 <= i < j < |ids| ==> ids[i] < ids[j])
    case ReadTip(reported) => w.sweepTip.None? && reported <= w.tip
    case JudgeNext(answer) =>
      && w.sweep != [] && w.sweepTip.Some?
      && var row := w.sweep[0].row;
         (row.tx.Some? ==>
           && (answer.Found? && answer.confirmations >= 1 ==> row.tx.value in w.mined)
           && (answer.NotFound? && row.expiry.Some? && w.sweepTip.value > row.expiry.value + EXPIRY_SLACK
               ==> row.tx.value !in w.mined))
    case Mine(spend) =>
      && (exists id :: (id, spend) in w.built)
      && spend !in w.mined && w.tip + 1 <= spend.expiryHeight
    case EmptyBlock => true
    case Crash => true
    case Reprice => w.epoch + 1 < |c.scheds|
  }

  function ReadRows(db: Db, ids: seq<nat>): (rs: seq<ReadRow>)
    requires forall i :: 0 <= i < |ids| ==> ids[i] in db.payments
    ensures |rs| == |ids| && forall i :: 0 <= i < |ids| ==> rs[i] == ReadRow(ids[i], db.payments[ids[i]])
  {
    seq(|ids|, i requires 0 <= i < |ids| => ReadRow(ids[i], db.payments[ids[i]]))
  }

  function Apply(c: Config, w: World, step: Step): World
    requires c.Valid() && Enabled(c, w, step)
    requires w.picked.Some? ==> w.picked.value in w.db.payments
  {
    match step
    case Insert(p) => w.(db := Payments.Inserted(w.db, p))
    case Pick(now, id) => w.(picked := Some(id))
    case ReadsFail(now) =>
      w.(db := FailureRecorded(w.db, w.picked.value, w.db.payments[w.picked.value].attempts, now), picked := None)
    case WriteAhead(reported, utxos, now) =>
      var id := w.picked.value;
      var row := w.db.payments[id];
      var spend := Built(w.db, row, c.Sched(w.epoch), c.fee, reported, utxos);
      w.(db := Settled(w.db, id, row, c.Sched(w.epoch), c.fee, reported, utxos, now), picked := None,
         built := if spend.Some? then w.built + {(id, spend.value)} else w.built)
    case StartSweep(ids) => w.(sweep := ReadRows(w.db, ids), sweepTip := None)
    case ReadTip(reported) => w.(sweepTip := Some(reported))
    case JudgeNext(answer) =>
      w.(db := Judged(w.db, w.sweep[0].id, w.sweep[0].row, w.sweepTip.value, answer), sweep := w.sweep[1..])
    case Mine(spend) => w.(tip := w.tip + 1, mined := w.mined[spend := w.tip + 1])
    case EmptyBlock => w.(tip := w.tip + 1)
    case Crash => w.(picked := None, sweep := [], sweepTip := None)
    case Reprice => w.(picked := None, sweep := [], sweepTip := None, epoch := w.epoch + 1)
  }

  // ---------------------------------------------------------------- the invariant

  /** The row's own transaction, in flight or settled. */
  predicate Current(w: World, id: nat, s: Spend) {
    id in w.db.payments && w.db.payments[id].tx == Some(s) && w.db.payments[id].status != Pending
  }

  /** Not mined, and too late to be. */
  predicate Dead(w: World, s: Spend) {
    s !in w.mined && w.tip >= s.expiryHeight
  }

  predicate RowShape(w: World, id: nat)
    requires id in w.db.payments
  {
    var row := w.db.payments[id];
    match row.status
    case Pending => row.tx.None? && row.raw.None? && row.expiry.None?
    case Broadcast => row.tx.Some? && row.raw == row.tx && row.expiry == Some(row.tx.value.expiryHeight)
                      && (id, row.tx.value) in w.built && row.tx.value.inputs != [] && row.fluxZats == row.tx.value.amountZats
    case Confirmed => row.tx.Some? && row.tx.value in w.mined && (id, row.tx.value) in w.built
                      && row.raw.None? && row.fluxZats == row.tx.value.amountZats
  }

  predicate SizedUnder(c: Config, epoch: nat, s: Spend, days: nat)
    requires c.Valid()
  {
    s.amountZats == Sized(c.Sched(epoch), s.expiryHeight - EXPIRY_DELTA, days)
  }

  /** What every transaction was built from; its amount by the schedule deployed then. */
  predicate BuildShape(c: Config, w: World, id: nat, s: Spend)
    requires c.Valid()
  {
    && id in w.db.payments && MemoForCode(w.db.payments[id].code) == Some(s.memo)
    && (exists e :: 0 <= e <= w.epoch && SizedUnder(c, e, s, w.db.payments[id].days))
    && s.expiryHeight - EXPIRY_DELTA <= w.tip
  }

  /** Rows and transactions: every transaction ever built is its row's current one or dead. */
  ghost predicate TxInv(c: Config, w: World)
    requires c.Valid()
  {
    && (forall id :: id in w.db.payments ==> RowShape(w, id))
    && (forall id, s :: (id, s) in w.built ==> BuildShape(c, w, id, s) && (Current(w, id, s) || Dead(w, s)))
  }

  ghost predicate MinedInv(w: World) {
    forall s :: s in w.mined ==> s.expiryHeight - EXPIRY_DELTA <= w.mined[s] <= s.expiryHeight
  }

  /** The ledger holds exactly the inputs of the broadcast rows, each for one row. */
  ghost predicate LedgerInv(db: Db) {
    HeldForRows(db) && HeldByRows(db) && RowsDiffer(db)
  }

  ghost predicate HeldForRows(db: Db) {
    forall o :: o in db.spent ==> exists id :: BroadcastRow(db, id) && db.payments[id].tx == Some(db.spent[o])
                                               && o in db.spent[o].inputs
  }

  ghost predicate HeldByRows(db: Db) {
    forall id, o :: BroadcastRow(db, id) && db.payments[id].tx.Some? && o in db.payments[id].tx.value.inputs
      ==> o in db.spent && db.spent[o] == db.payments[id].tx.value
  }

  ghost predicate RowsDiffer(db: Db) {
    forall i, j :: BroadcastRow(db, i) && BroadcastRow(db, j) && i != j ==> db.payments[i].tx != db.payments[j].tx
  }

  /** UNIQUE (rail, event_key). */
  ghost predicate KeyInv(db: Db) {
    && (forall id :: id in db.payments ==> id < db.nextId)
    && (forall i, j :: i in db.payments && j in db.payments && i != j ==>
          (db.payments[i].rail, db.payments[i].eventKey) != (db.payments[j].rail, db.payments[j].eventKey))
  }

  /** What the loops hold in memory is still what the tables say. */
  ghost predicate MemoryInv(w: World) {
    && (w.picked.Some? ==> w.picked.value in w.db.payments && w.db.payments[w.picked.value].status == Pending)
    && (w.sweepTip.Some? ==> w.sweepTip.value <= w.tip)
    && (forall k :: 0 <= k < |w.sweep| ==> BroadcastRow(w.db, w.sweep[k].id) && w.db.payments[w.sweep[k].id] == w.sweep[k].row)
    && (forall k, m :: 0 <= k < m < |w.sweep| ==> w.sweep[k].id != w.sweep[m].id)
  }

  ghost predicate Inv(c: Config, w: World) {
    c.Valid() && TxInv(c, w) && MinedInv(w) && LedgerInv(w.db) && KeyInv(w.db) && MemoryInv(w)
  }

  function Start(tip: int): World {
    World(Db(map[], map[], 1), tip, {}, map[], 0, None, [], None)
  }

  lemma StartInv(c: Config, tip: int)
    requires c.Valid()
    ensures Inv(c, Start(tip))
  {
  }

  // ---------------------------------------------------------------- every step keeps it

  /** db' differs from db in new pending rows and in retry bookkeeping of pending rows only. */
  ghost predicate SameSettlements(db: Db, db': Db) {
    && db'.spent == db.spent
    && (forall id :: id in db.payments ==>
          && id in db'.payments && db'.payments[id].(attempts := db.payments[id].attempts, nextRetryAt := db.payments[id].nextRetryAt)
                                   == db.payments[id]
          && (db.payments[id].status != Pending ==> db'.payments[id] == db.payments[id]))
    && (forall id :: id in db'.payments && id !in db.payments ==>
          db'.payments[id].status == Pending && db'.payments[id].tx.None? && db'.payments[id].raw.None? && db'.payments[id].expiry.None?)
  }

  lemma TxUnmoved(c: Config, w: World, w': World)
    requires c.Valid() && TxInv(c, w) && SameSettlements(w.db, w'.db)
    requires w'.tip == w.tip && w'.mined == w.mined && w'.built == w.built && w.epoch <= w'.epoch
    ensures TxInv(c, w')
  {
    hide SizedUnder, ValidCode;
    forall id | id in w'.db.payments ensures RowShape(w', id) {
      if id in w.db.payments { assert RowShape(w, id); }
    }
    forall id, s | (id, s) in w'.built ensures BuildShape(c, w', id, s) && (Current(w', id, s) || Dead(w', s)) {
      assert BuildShape(c, w, id, s) && (Current(w, id, s) || Dead(w, s));
    }
  }

  lemma LedgerUnmoved(db: Db, db': Db)
    requires LedgerInv(db) && SameSettlements(db, db')
    ensures LedgerInv(db')
  {
    assert forall id :: BroadcastRow(db', id) <==> BroadcastRow(db, id);
    assert forall id :: BroadcastRow(db, id) ==> db'.payments[id].tx == db.payments[id].tx;
    forall o | o in db'.spent
      ensures exists id :: BroadcastRow(db', id) && db'.payments[id].tx == Some(db'.spent[o]) && o in db'.spent[o].inputs
    {
      var id :| BroadcastRow(db, id) && db.payments[id].tx == Some(db.spent[o]) && o in db.spent[o].inputs;
      assert BroadcastRow(db', id);
    }
  }

  lemma InsertKeeps(c: Config, w: World, p: NewPayment)
    requires Inv(c, w)
    ensures Inv(c, w.(db := Payments.Inserted(w.db, p)))
  {
    hide Sized, ValidCode, LedgerInv, TxInv, SameSettlements, KeyInv, MemoryInv;
    var w' := w.(db := Payments.Inserted(w.db, p));
    InsertSettlesNothing(w.db, p);
    hide Payments.Inserted;
    TxUnmoved(c, w, w');
    LedgerUnmoved(w.db, w'.db);
    InsertKeepsMemory(w, p);
  }

  lemma InsertSettlesNothing(db: Db, p: NewPayment)
    requires KeyInv(db)
    ensures SameSettlements(db, Payments.Inserted(db, p)) && KeyInv(Payments.Inserted(db, p))
  {
  }

  lemma InsertKeepsMemory(w: World, p: NewPayment)
    requires MemoryInv(w) && KeyInv(w.db)
    ensures MemoryInv(w.(db := Payments.Inserted(w.db, p)))
  {
  }

  lemma FailureKeeps(c: Config, w: World, id: nat, attempts: nat, now: int)
    requires Inv(c, w) && id in w.db.payments && w.db.payments[id].status == Pending
    ensures Inv(c, w.(db := FailureRecorded(w.db, id, attempts, now), picked := None))
  {
    hide Sized, ValidCode, LedgerInv, TxInv, SameSettlements, KeyInv, MemoryInv;
    var w' := w.(db := FailureRecorded(w.db, id, attempts, now), picked := None);
    FailureSettlesNothing(w.db, id, attempts, now);
    FailureKeepsMemory(w, id, attempts, now);
    hide FailureRecorded;
    TxUnmoved(c, w, w');
    LedgerUnmoved(w.db, w'.db);
  }

  lemma FailureSettlesNothing(db: Db, id: nat, attempts: nat, now: int)
    requires KeyInv(db) && id in db.payments && db.payments[id].status == Pending
    ensures SameSettlements(db, FailureRecorded(db, id, attempts, now)) && KeyInv(FailureRecorded(db, id, attempts, now))
  {
    hide Power;
  }

  lemma FailureKeepsMemory(w: World, id: nat, attempts: nat, now: int)
    requires MemoryInv(w) && id in w.db.payments && w.db.payments[id].status == Pending
    ensures MemoryInv(w.(db := FailureRecorded(w.db, id, attempts, now), picked := None))
  {
    hide Power;
  }

  lemma BlockKeeps(c: Config, w: World)
    requires Inv(c, w)
    ensures Inv(c, w.(tip := w.tip + 1))
  {
    hide Sized, ValidCode;
  }

  /** Only a transaction that is still some row's current one can be mined. */
  lemma MineKeeps(c: Config, w: World, s: Spend)
    requires Inv(c, w) && Enabled(c, w, Mine(s))
    ensures Inv(c, w.(tip := w.tip + 1, mined := w.mined[s := w.tip + 1]))
  {
    hide LedgerInv, KeyInv, MemoryInv, TxInv, MinedInv;
    var w' := w.(tip := w.tip + 1, mined := w.mined[s := w.tip + 1]);
    assert TxInv(c, w') by { MineKeepsTx(c, w, s); }
    assert MinedInv(w') by { MineKeepsMined(c, w, s); }
    assert MemoryInv(w') by { MineKeepsMemory(w, s); }
  }

  lemma MineKeepsTx(c: Config, w: World, s: Spend)
    requires c.Valid() && TxInv(c, w) && Enabled(c, w, Mine(s))
    ensures TxInv(c, w.(tip := w.tip + 1, mined := w.mined[s := w.tip + 1]))
  {
    hide SizedUnder, ValidCode;
    var w' := w.(tip := w.tip + 1, mined := w.mined[s := w.tip + 1]);
    forall id | id in w'.db.payments ensures RowShape(w', id) { assert RowShape(w, id); }
    forall id, t | (id, t) in w'.built ensures BuildShape(c, w', id, t) && (Current(w', id, t) || Dead(w', t)) {
      assert BuildShape(c, w, id, t) && (Current(w, id, t) || Dead(w, t));
    }
  }

  lemma MineKeepsMined(c: Config, w: World, s: Spend)
    requires c.Valid() && TxInv(c, w) && MinedInv(w) && Enabled(c, w, Mine(s))
    ensures MinedInv(w.(tip := w.tip + 1, mined := w.mined[s := w.tip + 1]))
  {
    hide SizedUnder, ValidCode;
    var id :| (id, s) in w.built;
    assert BuildShape(c, w, id, s);
  }

  lemma MineKeepsMemory(w: World, s: Spend)
    requires MemoryInv(w)
    ensures MemoryInv(w.(tip := w.tip + 1, mined := w.mined[s := w.tip + 1]))
  {
  }

  lemma {:induction false} HeldMeans(spent: map<Outpoint, Spend>, os: seq<Outpoint>, s: Spend)
    ensures forall o :: o in Held(spent, os, s) <==> o in spent || o in os
    ensures forall o :: o in Held(spent, os, s) ==> Held(spent, os, s)[o] == (if o in spent then spent[o] else s)
  {
    if os != [] {
      HeldMeans(spent, os[..|os| - 1], s);
      assert os == os[..|os| - 1] + [os[|os| - 1]];
    }
  }

  /** What the broadcaster built spends only outputs no transaction in flight holds. */
  lemma BuiltMeans(db: Db, row: Row, s: Schedule, fee: int, tip: int, utxos: seq<Utxo>)
    requires s.Valid() && Built(db, row, s, fee, tip, utxos).Some?
    ensures var spend := Built(db, row, s, fee, tip, utxos).value;
            && spend.inputs != [] && (forall o :: o in spend.inputs ==> o !in db.spent)
            && MemoForCode(row.code) == Some(spend.memo) && spend.amountZats == Sized(s, tip, row.days)
            && spend.expiryHeight == tip + EXPIRY_DELTA
  {
    hide Sized, Select, ValidCode;
    var amount := Sized(s, tip, row.days);
    var inputs := Select(utxos, db.spent.Keys, amount + fee).value;
    SelectedNonEmpty(utxos, db.spent.Keys, amount + fee);
    forall o | o in Outpoints(inputs) ensures o !in db.spent {
      var i :| 0 <= i < |inputs| && Outpoints(inputs)[i] == o;
      SelectedUsable(utxos, db.spent.Keys, amount + fee, i);
    }
  }

  lemma SelectedNonEmpty(available: seq<Utxo>, excluded: set<Outpoint>, needed: int)
    requires Select(available, excluded, needed).Some?
    ensures Select(available, excluded, needed).value != []
  {
  }

  lemma LedgerHolds(db: Db, id: nat, spend: Spend)
    requires LedgerInv(db) && id in db.payments && db.payments[id].status == Pending
    requires spend.inputs != [] && forall o :: o in spend.inputs ==> o !in db.spent
    requires forall i :: BroadcastRow(db, i) ==> db.payments[i].tx.Some? && db.payments[i].tx.value.inputs != []
    ensures LedgerInv(MarkedBroadcast(db, id, spend))
  {
    var db' := MarkedBroadcast(db, id, spend);
    HeldMeans(db.spent, spend.inputs, spend);
    hide Held;
    assert forall i :: BroadcastRow(db', i) <==> BroadcastRow(db, i) || i == id;
    SpendIsNew(db, spend);
    forall o | o in db'.spent
      ensures exists i :: BroadcastRow(db', i) && db'.payments[i].tx == Some(db'.spent[o]) && o in db'.spent[o].inputs
    {
      HeldByRow(db, id, spend, o);
    }
  }

  /** A spend of free outputs is no row's current transaction. */
  lemma SpendIsNew(db: Db, spend: Spend)
    requires LedgerInv(db) && spend.inputs != [] && forall o :: o in spend.inputs ==> o !in db.spent
    ensures forall i :: BroadcastRow(db, i) ==> db.payments[i].tx != Some(spend)
  {
    assert spend.inputs[0] in spend.inputs;
  }

  lemma HeldByRow(db: Db, id: nat, spend: Spend, o: Outpoint)
    requires LedgerInv(db) && id in db.payments && db.payments[id].status == Pending
    requires o in MarkedBroadcast(db, id, spend).spent
    ensures var db' := MarkedBroadcast(db, id, spend);
            exists i :: BroadcastRow(db', i) && db'.payments[i].tx == Some(db'.spent[o]) && o in db'.spent[o].inputs
  {
    var db' := MarkedBroadcast(db, id, spend);
    HeldMeans(db.spent, spend.inputs, spend);
    hide Held;
    if o in db.spent {
      var i :| BroadcastRow(db, i) && db.payments[i].tx == Some(db.spent[o]) && o in db.spent[o].inputs;
      assert BroadcastRow(db', i);
    } else {
      assert BroadcastRow(db', id);
    }
  }

  lemma TxBuilt(c: Config, w: World, id: nat, spend: Spend, w': World)
    requires c.Valid() && TxInv(c, w) && id in w.db.payments && w.db.payments[id].status == Pending
    requires spend.inputs != [] && MemoForCode(w.db.payments[id].code) == Some(spend.memo)
    requires SizedUnder(c, w.epoch, spend, w.db.payments[id].days)
    requires spend.expiryHeight - EXPIRY_DELTA <= w.tip
    requires w'.db == MarkedBroadcast(w.db, id, spend) && w'.built == w.built + {(id, spend)}
    requires w'.tip == w.tip && w'.mined == w.mined && w'.epoch == w.epoch
    ensures TxInv(c, w')
  {
    hide SizedUnder, ValidCode, Held;
    forall i | i in w'.db.payments ensures RowShape(w', i) { assert RowShape(w, i); }
    forall i, s | (i, s) in w'.built ensures BuildShape(c, w', i, s) && (Current(w', i, s) || Dead(w', s)) {
      if (i, s) in w.built {
        assert BuildShape(c, w, i, s) && (Current(w, i, s) || Dead(w, s));
      }
    }
  }

  lemma WriteAheadKeeps(c: Config, w: World, reported: int, utxos: seq<Utxo>, now: int)
    requires Inv(c, w) && Enabled(c, w, WriteAhead(reported, utxos, now))
    ensures Inv(c, Apply(c, w, WriteAhead(reported, utxos, now)))
  {
    hide Sized, ValidCode, LedgerInv, TxInv, Built, Held;
    var id := w.picked.value;
    var row := w.db.payments[id];
    var spend := Built(w.db, row, c.Sched(w.epoch), c.fee, reported, utxos);
    var w' := Apply(c, w, WriteAhead(reported, utxos, now));
    if spend.None? {
      FailureKeeps(c, w, id, row.attempts, now);
    } else {
      BuiltMeans(w.db, row, c.Sched(w.epoch), c.fee, reported, utxos);
      BroadcastRowsSpend(c, w);
      LedgerHolds(w.db, id, spend.value);
      TxBuilt(c, w, id, spend.value, w');
    }
  }

  lemma BroadcastRowsSpend(c: Config, w: World)
    requires c.Valid() && TxInv(c, w)
    ensures forall i :: BroadcastRow(w.db, i) ==> w.db.payments[i].tx.Some? && w.db.payments[i].tx.value.inputs != []
  {
    forall i | BroadcastRow(w.db, i) ensures w.db.payments[i].tx.Some? && w.db.payments[i].tx.value.inputs != [] {
      assert RowShape(w, i);
    }
  }

  /** A broadcast row leaves that status, its transaction released from the ledger. */
  lemma LedgerReleases(db: Db, id: nat, row': Row)
    requires LedgerInv(db) && BroadcastRow(db, id) && db.payments[id].tx.Some? && row'.status != Broadcast
    ensures LedgerInv(db.(payments := db.payments[id := row'], spent := Released(db.spent, db.payments[id].tx.value)))
  {
    hide HeldForRows, HeldByRows, RowsDiffer, Released;
    var s := db.payments[id].tx.value;
    var db' := db.(payments := db.payments[id := row'], spent := Released(db.spent, s));
    assert forall i :: BroadcastRow(db', i) <==> BroadcastRow(db, i) && i != id;
    assert HeldForRows(db') by { ReleaseHoldsForRows(db, id, row'); }
    assert HeldByRows(db') by { ReleaseHeldByRows(db, id, row'); }
    assert RowsDiffer(db') by { ReleaseRowsDiffer(db, id, row'); }
  }

  lemma ReleaseRowsDiffer(db: Db, id: nat, row': Row)
    requires RowsDiffer(db) && BroadcastRow(db, id) && db.payments[id].tx.Some? && row'.status != Broadcast
    ensures RowsDiffer(db.(payments := db.payments[id := row'], spent := Released(db.spent, db.payments[id].tx.value)))
  {
  }

  lemma ReleaseHeldByRows(db: Db, id: nat, row': Row)
    requires HeldByRows(db) && RowsDiffer(db) && BroadcastRow(db, id) && db.payments[id].tx.Some? && row'.status != Broadcast
    ensures HeldByRows(db.(payments := db.payments[id := row'], spent := Released(db.spent, db.payments[id].tx.value)))
  {
  }

  lemma ReleaseHoldsForRows(db: Db, id: nat, row': Row)
    requires HeldForRows(db) && BroadcastRow(db, id) && db.payments[id].tx.Some? && row'.status != Broadcast
    ensures HeldForRows(db.(payments := db.payments[id := row'], spent := Released(db.spent, db.payments[id].tx.value)))
  {
    var s := db.payments[id].tx.value;
    var db' := db.(payments := db.payments[id := row'], spent := Released(db.spent, s));
    forall o | o in db'.spent
      ensures exists i :: BroadcastRow(db', i) && db'.payments[i].tx == Some(db'.spent[o]) && o in db'.spent[o].inputs
    {
      var i :| BroadcastRow(db, i) && db.payments[i].tx == Some(db.spent[o]) && o in db.spent[o].inputs;
      assert BroadcastRow(db', i);
    }
  }

  lemma TxJudged(c: Config, w: World, id: nat, row': Row, w': World)
    requires c.Valid() && TxInv(c, w) && BroadcastRow(w.db, id) && w.db.payments[id].tx.Some?
    requires w'.built == w.built && w'.tip == w.tip && w'.mined == w.mined && w'.epoch == w.epoch
    requires w'.db.payments == w.db.payments[id := row']
    requires row'.code == w.db.payments[id].code && row'.days == w.db.payments[id].days
    requires var s := w.db.payments[id].tx.value;
             || (row'.status == Confirmed && row'.tx == Some(s) && s in w.mined && row'.raw.None? && row'.fluxZats == w.db.payments[id].fluxZats)
             || (row'.status == Pending && row'.tx.None? && row'.raw.None? && row'.expiry.None? && Dead(w, s))
    ensures TxInv(c, w')
  {
    hide Sized, ValidCode;
    assert RowShape(w, id);
    forall i | i in w'.db.payments ensures RowShape(w', i) { if i in w.db.payments { assert RowShape(w, i); } }
    forall i, s | (i, s) in w'.built ensures BuildShape(c, w', i, s) && (Current(w', i, s) || Dead(w', s)) {
      assert BuildShape(c, w, i, s) && (Current(w, i, s) || Dead(w, s));
    }
  }

  lemma JudgeKeeps(c: Config, w: World, answer: Lookup)
    requires Inv(c, w) && Enabled(c, w, JudgeNext(answer))
    ensures Inv(c, Apply(c, w, JudgeNext(answer)))
  {
    hide Sized, ValidCode, LedgerInv, TxInv;
    var id, row := w.sweep[0].id, w.sweep[0].row;
    var w' := Apply(c, w, JudgeNext(answer));
    BroadcastRowsSpend(c, w);
    BroadcastShape(c, w, id);
    match Judge(row, w.sweepTip.value, answer) {
      case Confirm =>
        var row' := row.(status := Confirmed, raw := None);
        LedgerReleases(w.db, id, row');
        TxJudged(c, w, id, row', w');
      case Reset =>
        var row' := row.(status := Pending, tx := None, raw := None, expiry := None, nextRetryAt := 0);
        LedgerReleases(w.db, id, row');
        TxJudged(c, w, id, row', w');
      case _ =>
        assert w'.db == w.db;
        TxUnmoved(c, w, w');
    }
  }

  lemma BroadcastShape(c: Config, w: World, id: nat)
    requires c.Valid() && TxInv(c, w) && BroadcastRow(w.db, id)
    ensures RowShape(w, id)
  {
  }

  lemma StepKeeps(c: Config, w: World, step: Step)
    requires Inv(c, w) && Enabled(c, w, step)
    ensures Inv(c, Apply(c, w, step))
  {
    hide Sized, ValidCode, LedgerInv, TxInv;
    match step {
      case Insert(p) => InsertKeeps(c, w, p);
      case Pick(now, id) => TxUnmoved(c, w, Apply(c, w, step));
      case ReadsFail(now) => FailureKeeps(c, w, w.picked.value, w.db.payments[w.picked.value].attempts, now);
      case WriteAhead(reported, utxos, now) => WriteAheadKeeps(c, w, reported, utxos, now);
      case StartSweep(ids) => TxUnmoved(c, w, Apply(c, w, step));
      case ReadTip(reported) => TxUnmoved(c, w, Apply(c, w, step));
      case JudgeNext(answer) => JudgeKeeps(c, w, answer);
      case Mine(spend) => MineKeeps(c, w, spend);
      case EmptyBlock => BlockKeeps(c, w);
      case Crash => TxUnmoved(c, w, Apply(c, w, step));
      case Reprice => TxUnmoved(c, w, Apply(c, w, step));
    }
  }

  // ---------------------------------------------------------------- whole runs

  /** A run: worlds from an empty queue, each the result of an enabled step. */
  ghost predicate IsRun(c: Config, ws: seq<World>, steps: seq<Step>) {
    && c.Valid() && |ws| == |steps| + 1 && ws[0] == Start(ws[0].tip)
    && forall i :: 0 <= i < |steps| ==>
         && (ws[i].picked.Some? ==> ws[i].picked.value in ws[i].db.payments)
         && Enabled(c, ws[i], steps[i]) && ws[i + 1] == Apply(c, ws[i], steps[i])
  }

  lemma {:induction false} RunKeeps(c: Config, ws: seq<World>, steps: seq<Step>, n: nat)
    requires IsRun(c, ws, steps) && n < |ws|
    ensures Inv(c, ws[n])
  {
    hide Inv, Apply, Enabled;
    if n == 0 {
      StartInv(c, ws[0].tip);
    } else {
      RunKeeps(c, ws, steps, n - 1);
      StepKeeps(c, ws[n - 1], steps[n - 1]);
    }
  }

  /** In every world of every run, crashes, lost answers, resets and repricing included, no payment has
      two transactions that are mined or could still be. */
  lemma AtMostOneLive(c: Config, ws: seq<World>, steps: seq<Step>, n: nat, i: nat, j: nat, s: Spend, t: Spend)
    requires IsRun(c, ws, steps) && n < |ws|
    requires (i, s) in ws[n].built && (j, t) in ws[n].built
    requires i in ws[n].db.payments && j in ws[n].db.payments
    requires ws[n].db.payments[i].rail == ws[n].db.payments[j].rail
    requires ws[n].db.payments[i].eventKey == ws[n].db.payments[j].eventKey
    ensures s == t || Dead(ws[n], s) || Dead(ws[n], t)
    ensures s in ws[n].mined && t in ws[n].mined ==> s == t
  {
    RunKeeps(c, ws, steps, n);
    hide Sized, ValidCode;
  }

  /** Every confirmed payment is settled by a mined transaction built for it, which a gateway under the
      schedule it was sized by credits to the payment's code, at the height it was mined at, with at least
      the bought days, and exactly those days where the sizing price is in effect there and is at least
      33 zats. */
  lemma ConfirmedIsPaid(c: Config, ws: seq<World>, steps: seq<Step>, n: nat, id: nat, txid: string, seconds: nat)
    returns (epoch: nat)
    requires IsRun(c, ws, steps) && n < |ws|
    requires id in ws[n].db.payments && ws[n].db.payments[id].status == Confirmed && ws[n].db.payments[id].days >= 1
    ensures epoch <= ws[n].epoch
    ensures var row, sched := ws[n].db.payments[id], c.Sched(epoch);
            && row.tx.Some? && row.tx.value in ws[n].mined && (id, row.tx.value) in ws[n].built
            && row.tx.value.amountZats >= 0
            && var h := ws[n].mined[row.tx.value];
               var tip := row.tx.value.expiryHeight - EXPIRY_DELTA;
               var worth := Worth(Tx(txid, h, seconds, row.tx.value.amountZats, [row.tx.value.memo]), sched);
               && worth.Some? && worth.value.0 == row.code && worth.value.1 >= row.days
               && (Effective(sched, h) == HighestEffective(sched, tip, tip + EXPIRY_DELTA) >= 33 ==> worth.value.1 == row.days)
  {
    RunKeeps(c, ws, steps, n);
    var w := ws[n];
    assert RowShape(w, id);
    var s := w.db.payments[id].tx.value;
    assert BuildShape(c, w, id, s);
    hide Effective, HighestEffective, DaysGranted, PaysADay, ZatsForDays, ValidCode, Worth;
    epoch :| 0 <= epoch <= w.epoch && SizedUnder(c, epoch, s, w.db.payments[id].days);
    SizingPrice(c.Sched(epoch), s.expiryHeight - EXPIRY_DELTA);
    SettlementIsWorth(c.Sched(epoch), s.expiryHeight - EXPIRY_DELTA, w.db.payments[id].days, w.db.payments[id].code,
                      Tx(txid, w.mined[s], seconds, s.amountZats, [s.memo]));
  }

  /** The outpoint ledger is always the disjoint union of the inputs of the broadcast rows. */
  lemma LedgerIsUnion(c: Config, ws: seq<World>, steps: seq<Step>, n: nat, o: Outpoint)
    requires IsRun(c, ws, steps) && n < |ws|
    ensures o in ws[n].db.spent <==> exists id :: BroadcastRow(ws[n].db, id) && Holds(ws[n].db, id, o)
    ensures forall i, j :: BroadcastRow(ws[n].db, i) && BroadcastRow(ws[n].db, j) && i != j ==>
              !(Holds(ws[n].db, i, o) && Holds(ws[n].db, j, o))
  {
    hide IsRun, TxInv, MinedInv, KeyInv, MemoryInv;
    RunKeeps(c, ws, steps, n);
    var db := ws[n].db;
    if o in db.spent {
      var id :| BroadcastRow(db, id) && db.payments[id].tx == Some(db.spent[o]) && o in db.spent[o].inputs;
      assert Holds(db, id, o);
    }
  }

  predicate Holds(db: Db, id: nat, o: Outpoint)
    requires id in db.payments
  {
    db.payments[id].tx.Some? && o in db.payments[id].tx.value.inputs
  }

  /** A duplicate delivery changes nothing: one row per (rail, event_key), for ever. */
  lemma OneRowPerKey(c: Config, ws: seq<World>, steps: seq<Step>, n: nat, p: NewPayment)
    requires IsRun(c, ws, steps) && n < |ws|
    ensures Recorded(ws[n].db, p.rail, p.eventKey) ==> Payments.Inserted(ws[n].db, p) == ws[n].db
    ensures KeyInv(ws[n].db)
  {
    RunKeeps(c, ws, steps, n);
    hide TxInv, LedgerInv, Sized;
  }
}
