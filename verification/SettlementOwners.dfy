/** Whose settlement a mined transaction is. A transaction is determined by its inputs, amount, memo and
    expiry, so two payments of one code and length have the same one if built on the same answers of the
    chain. */
module SettlementOwners {
  import opened Common
  import opened PriceSchedule
  import opened GrantRules
  import opened PaymentCodes
  import opened Treasury
  import opened Payments
  import opened Settlement

  /** No transaction that is mined or could still be belongs to two payments. */
  ghost predicate Owned(w: World) {
    forall i, j, s :: (i, s) in w.built && (j, s) in w.built && i != j ==> Dead(w, s)
  }

  /** A write-ahead that builds a transaction which is mined already. */
  ghost predicate Rebuilds(c: Config, w: World, step: Step)
    requires c.Valid()
  {
    && step.WriteAhead? && w.picked.Some? && w.picked.value in w.db.payments
    && var spend := Built(w.db, w.db.payments[w.picked.value], c.Sched(w.epoch), c.fee, step.reported, step.utxos);
       spend.Some? && spend.value in w.mined
  }

  ghost predicate MinedIsBuilt(w: World) {
    forall s :: s in w.mined ==> exists i :: (i, s) in w.built
  }

  /** What two payments share is mined or dead: the ledger gives two rows in flight different ones. */
  lemma SharedIsMined(c: Config, w: World, i: nat, j: nat, s: Spend)
    requires Inv(c, w) && (i, s) in w.built && (j, s) in w.built && i != j
    ensures s in w.mined || Dead(w, s)
  {
    hide BuildShape, LedgerInv, KeyInv, MemoryInv;
    if !Dead(w, s) && s !in w.mined {
      assert Current(w, i, s) && Current(w, j, s);
      assert RowShape(w, i) && RowShape(w, j);
      InFlightDiffer(w.db, i, j);
    }
  }

  lemma InFlightDiffer(db: Db, i: nat, j: nat)
    requires LedgerInv(db) && i != j && BroadcastRow(db, i) && BroadcastRow(db, j)
    ensures db.payments[i].tx != db.payments[j].tx
  {
  }

  /** A transaction built on free outputs is its first, or is mined or dead. */
  lemma BuiltIsNew(c: Config, w: World, id: nat, j: nat, s: Spend)
    requires Inv(c, w) && id in w.db.payments && w.db.payments[id].status == Pending
    requires s.inputs != [] && (forall o :: o in s.inputs ==> o !in w.db.spent)
    requires (j, s) in w.built
    ensures s in w.mined || Dead(w, s)
    ensures j == id ==> Dead(w, s)
  {
    hide BuildShape, KeyInv, MemoryInv;
    if !Dead(w, s) {
      assert Current(w, j, s);
      assert RowShape(w, j);
      assert s.inputs[0] in s.inputs;
    }
  }

  lemma WriteAheadOwnedIff(c: Config, w: World, reported: int, utxos: seq<Utxo>, now: int)
    requires Inv(c, w) && MinedIsBuilt(w) && Enabled(c, w, WriteAhead(reported, utxos, now))
    requires w.picked.value in w.db.payments
    ensures var step := WriteAhead(reported, utxos, now);
            Owned(Apply(c, w, step)) <==> Owned(w) && !Rebuilds(c, w, step)
  {
    hide Inv, Built, Settled, TxInv, LedgerInv, KeyInv;
    var step := WriteAhead(reported, utxos, now);
    PickedIsPending(c, w);
    var id := w.picked.value;
    var spend := Built(w.db, w.db.payments[id], c.Sched(w.epoch), c.fee, reported, utxos);
    var w' := Apply(c, w, step);
    if spend.Some? {
      var s := spend.value;
      BuiltMeans(w.db, w.db.payments[id], c.Sched(w.epoch), c.fee, reported, utxos);
      forall j | (j, s) in w.built ensures (s in w.mined || Dead(w, s)) && (j == id ==> Dead(w, s)) {
        BuiltIsNew(c, w, id, j, s);
      }
      if s in w.mined {
        var j :| (j, s) in w.built;
        assert (id, s) in w'.built && (j, s) in w'.built && !Dead(w', s);
      }
      if Owned(w') {
        forall i, j, t | (i, t) in w.built && (j, t) in w.built && i != j ensures Dead(w, t) {
          assert (i, t) in w'.built && (j, t) in w'.built;
        }
      }
    }
  }

  lemma PickedIsPending(c: Config, w: World)
    requires Inv(c, w)
    ensures c.Valid()
    ensures w.picked.Some? ==> w.picked.value in w.db.payments && w.db.payments[w.picked.value].status == Pending
  {
    hide TxInv, LedgerInv, KeyInv;
  }

  /** Of all steps only such a write-ahead makes two payments share a transaction, and nothing undoes it. */
  lemma StepOwnedIff(c: Config, w: World, step: Step)
    requires Inv(c, w) && MinedIsBuilt(w) && Enabled(c, w, step)
    requires w.picked.Some? ==> w.picked.value in w.db.payments
    ensures MinedIsBuilt(Apply(c, w, step))
    ensures Owned(Apply(c, w, step)) <==> Owned(w) && !Rebuilds(c, w, step)
  {
    hide Inv, Built, Settled, Judged, FailureRecorded, Inserted, ReadRows;
    PickedIsPending(c, w);
    if step.WriteAhead? {
      WriteAheadOwnedIff(c, w, step.reported, step.utxos, step.now);
    } else {
      var w' := Apply(c, w, step);
      forall i, j, s | (i, s) in w.built && (j, s) in w.built && i != j ensures Dead(w, s) <==> Dead(w', s) {
        SharedIsMined(c, w, i, j, s);
      }
    }
  }

  /** Exactly when every live transaction is one payment's own: no write-ahead so far built a mined one. */
  lemma {:induction false} OwnedIff(c: Config, ws: seq<World>, steps: seq<Step>, n: nat)
    requires IsRun(c, ws, steps) && n < |ws|
    ensures MinedIsBuilt(ws[n])
    ensures Owned(ws[n]) <==> forall i :: 0 <= i < n ==> !Rebuilds(c, ws[i], steps[i])
  {
    hide Apply, Enabled, Owned, Rebuilds, MinedIsBuilt;
    if n == 0 {
      OwnedAtStart(ws[0].tip);
    } else {
      OwnedIff(c, ws, steps, n - 1);
      RunKeeps(c, ws, steps, n - 1);
      StepOwnedIff(c, ws[n - 1], steps[n - 1]);
    }
  }

  lemma OwnedAtStart(tip: int)
    ensures Owned(Start(tip)) && MinedIsBuilt(Start(tip))
  {
  }

  /** What markConfirmed relies on: an address's unspent outputs do not include an input of a mined
      transaction. */
  ghost predicate OffersUnspent(w: World, step: Step) {
    step.WriteAhead? ==> forall u, s :: u in step.utxos && s in w.mined ==> u.outpoint !in s.inputs
  }

  lemma BuiltFromOffer(db: Db, row: Row, s: Schedule, fee: int, tip: int, utxos: seq<Utxo>) returns (u: Utxo)
    requires s.Valid() && Built(db, row, s, fee, tip, utxos).Some?
    ensures u in utxos && u.outpoint in Built(db, row, s, fee, tip, utxos).value.inputs
  {
    hide Sized, MemoForCode, Select;
    var needed := Sized(s, tip, row.days) + fee;
    SelectedNonEmpty(utxos, db.spent.Keys, needed);
    SelectedUsable(utxos, db.spent.Keys, needed, 0);
    u := Select(utxos, db.spent.Keys, needed).value[0];
    assert Built(db, row, s, fee, tip, utxos).value.inputs[0] == u.outpoint;
  }

  lemma UnspentIsNew(c: Config, w: World, step: Step)
    requires c.Valid() && OffersUnspent(w, step)
    ensures !Rebuilds(c, w, step)
  {
    hide Built;
    if Rebuilds(c, w, step) {
      var _ := BuiltFromOffer(w.db, w.db.payments[w.picked.value], c.Sched(w.epoch), c.fee, step.reported, step.utxos);
    }
  }

  /** So, if the chain never offers an output that a mined transaction spent, two confirmed payments are
      settled by two different transactions. */
  lemma ConfirmedIsOwn(c: Config, ws: seq<World>, steps: seq<Step>, n: nat, i: nat, j: nat)
    requires IsRun(c, ws, steps) && n < |ws|
    requires forall k :: 0 <= k < n ==> OffersUnspent(ws[k], steps[k])
    requires i in ws[n].db.payments && ws[n].db.payments[i].status == Confirmed
    requires j in ws[n].db.payments && ws[n].db.payments[j].status == Confirmed && i != j
    ensures ws[n].db.payments[i].tx != ws[n].db.payments[j].tx
  {
    hide Apply, Enabled, OffersUnspent, Rebuilds, LedgerInv, KeyInv, MemoryInv, BuildShape;
    forall k | 0 <= k < n ensures !Rebuilds(c, ws[k], steps[k]) { UnspentIsNew(c, ws[k], steps[k]); }
    OwnedIff(c, ws, steps, n);
    RunKeeps(c, ws, steps, n);
    assert RowShape(ws[n], i) && RowShape(ws[n], j);
  }

  // ---------------------------------------------------------------- a run in which two payments share one

  function Last(ws: seq<World>): World
    requires ws != []
  {
    ws[|ws| - 1]
  }

  lemma Extend(c: Config, ws: seq<World>, steps: seq<Step>, step: Step) returns (ws': seq<World>, steps': seq<Step>)
    requires IsRun(c, ws, steps) && Enabled(c, Last(ws), step)
    requires Last(ws).picked.Some? ==> Last(ws).picked.value in Last(ws).db.payments
    ensures steps' == steps + [step] && ws' != [] && IsRun(c, ws', steps') && Last(ws') == Apply(c, Last(ws), step)
  {
    hide Apply, Enabled;
    ws', steps' := ws + [Apply(c, Last(ws), step)], steps + [step];
    forall i | 0 <= i < |steps'|
      ensures && (ws'[i].picked.Some? ==> ws'[i].picked.value in ws'[i].db.payments)
              && Enabled(c, ws'[i], steps'[i]) && ws'[i + 1] == Apply(c, ws'[i], steps'[i])
    {
      assert ws'[i] == ws[i];
      if i < |steps| { assert ws'[i + 1] == ws[i + 1] && steps'[i] == steps[i]; }
    }
  }

  lemma RunHasWorlds(c: Config, ws: seq<World>, steps: seq<Step>)
    requires IsRun(c, ws, steps)
    ensures ws != []
  {
  }

  /** The broadcaster takes up the first due row and writes ahead what it builds. */
  lemma BroadcastOne(c: Config, ws: seq<World>, steps: seq<Step>, now: int, id: nat, reported: int, utxos: seq<Utxo>, s: Spend)
    returns (ws': seq<World>, steps': seq<Step>)
    requires IsRun(c, ws, steps) && Last(ws).picked.None? && reported <= Last(ws).tip
    requires Due(Last(ws).db, now, id) && forall i :: Due(Last(ws).db, now, i) ==> id <= i
    requires Built(Last(ws).db, Last(ws).db.payments[id], c.Sched(Last(ws).epoch), c.fee, reported, utxos) == Some(s)
    ensures steps' == steps + [Pick(now, id), WriteAhead(reported, utxos, now)] && IsRun(c, ws', steps')
    ensures var w := Last(ws); Last(ws') == w.(db := MarkedBroadcast(w.db, id, s), built := w.built + {(id, s)})
  {
    hide IsRun, Built, MarkedBroadcast, Sized;
    RunHasWorlds(c, ws, steps);
    var ws1, steps1 := Extend(c, ws, steps, Pick(now, id));
    ws', steps' := Extend(c, ws1, steps1, WriteAhead(reported, utxos, now));
  }

  /** The confirmer reads a broadcast row, the tip, and that its transaction is mined. */
  lemma ConfirmOne(c: Config, ws: seq<World>, steps: seq<Step>, id: nat)
    returns (ws': seq<World>, steps': seq<Step>)
    requires IsRun(c, ws, steps) && Last(ws).picked.None? && Last(ws).sweep == [] && BroadcastRow(Last(ws).db, id)
    requires Last(ws).db.payments[id].tx.Some? && Last(ws).db.payments[id].tx.value in Last(ws).mined
    ensures steps' == steps + [StartSweep([id]), ReadTip(Last(ws).tip), JudgeNext(Found(1))] && IsRun(c, ws', steps')
    ensures var w := Last(ws); Last(ws') == w.(db := MarkedConfirmed(w.db, id), sweepTip := Some(w.tip))
  {
    hide IsRun, MarkedConfirmed;
    RunHasWorlds(c, ws, steps);
    var w := Last(ws);
    var ws1, steps1 := Extend(c, ws, steps, StartSweep([id]));
    assert Last(ws1).sweep == [ReadRow(id, w.db.payments[id])];
    var ws2, steps2 := Extend(c, ws1, steps1, ReadTip(w.tip));
    ws', steps' := Extend(c, ws2, steps2, JudgeNext(Found(1)));
  }

  /** One output large enough. */
  function Offer(c: Config, tip: int, days: nat): seq<Utxo>
    requires c.Valid() && c.fee >= 0
  {
    [Utxo(Outpoint("coin", 0), Sized(c.Sched(0), tip, days) + c.fee)]
  }

  /** What is built on it depends on the code and days of the row alone. */
  function OfferSpend(c: Config, tip: int, code: string, days: nat): Spend
    requires c.Valid() && ValidCode(code)
  {
    var amount := Sized(c.Sched(0), tip, days);
    Spend([Outpoint("coin", 0)], amount, MemoForCode(code).value, 0, tip + EXPIRY_DELTA)
  }

  lemma OfferBuilds(c: Config, tip: int, db: Db, row: Row)
    requires c.Valid() && ValidCode(row.code) && db.spent == map[] && c.fee >= 0
    ensures Built(db, row, c.Sched(0), c.fee, tip, Offer(c, tip, row.days)) == Some(OfferSpend(c, tip, row.code, row.days))
  {
    hide Sized, ValidCode, Select, Total;
    var us := Offer(c, tip, row.days);
    SelectOne(us[0]);
    assert db.spent.Keys == {} && us == [us[0]];
    assert Outpoints(us) == [Outpoint("coin", 0)];
  }

  lemma SelectOne(u: Utxo)
    ensures Select([u], {}, u.satoshis) == Some([u]) && Total([u]) == u.satoshis
  {
    var us := [u];
    assert us[..0] == [] && us[..1] == us;
    assert Usable(us, {}) == [] + us == us && LargestFirst(us) == [] + us == us;
  }

  function Paid(row: Row, s: Spend): Row {
    row.(status := Confirmed, tx := Some(s), raw := None, expiry := Some(s.expiryHeight), fluxZats := s.amountZats)
  }

  /** Once broadcast and confirmed, a transaction leaves no trace in the ledger. */
  lemma LedgerEmptied(db: Db, id: nat, s: Spend)
    requires id in db.payments && db.spent == map[]
    ensures MarkedConfirmed(MarkedBroadcast(db, id, s), id) == db.(payments := db.payments[id := Paid(db.payments[id], s)])
  {
    HeldMeans(map[], s.inputs, s);
    hide Held;
    var marked := MarkedBroadcast(db, id, s);
    assert MarkedConfirmed(marked, id).spent == map[];
  }

  lemma BroadcastIs(db: Db, id: nat, s: Spend)
    requires id in db.payments
    ensures var after := MarkedBroadcast(db, id, s);
            BroadcastRow(after, id) && after.payments[id].tx == Some(s)
  {
  }

  function Queued(p: NewPayment): Row {
    Row(p.rail, p.eventKey, p.code, p.days, p.fluxZats, Pending, None, None, None, 0, 0)
  }

  lemma TwoInserted(c: Config, tip: int, p: NewPayment, q: NewPayment) returns (ws: seq<World>, steps: seq<Step>)
    requires c.Valid() && (p.rail, p.eventKey) != (q.rail, q.eventKey)
    ensures steps == [Insert(p), Insert(q)] && ws != [] && IsRun(c, ws, steps)
    ensures Last(ws) == Start(tip).(db := Db(map[1 := Queued(p), 2 := Queued(q)], map[], 3))
  {
    ws, steps := [Start(tip)], [];
    assert IsRun(c, ws, steps);
    hide IsRun;
    ws, steps := Extend(c, ws, steps, Insert(p));
    ws, steps := Extend(c, ws, steps, Insert(q));
  }

  /** One row from pending to confirmed, its transaction mined or yet to be. */
  lemma PayOne(c: Config, ws: seq<World>, steps: seq<Step>, id: nat, reported: int, utxos: seq<Utxo>, s: Spend)
    returns (ws': seq<World>, steps': seq<Step>)
    requires ws != [] && IsRun(c, ws, steps)
    requires var w := Last(ws); w.picked.None? && w.sweep == [] && w.db.spent == map[] && reported <= w.tip
    requires Due(Last(ws).db, 0, id) && forall i :: Due(Last(ws).db, 0, i) ==> id <= i
    requires Built(Last(ws).db, Last(ws).db.payments[id], c.Sched(Last(ws).epoch), c.fee, reported, utxos) == Some(s)
    requires s !in Last(ws).mined ==> Last(ws).tip + 1 <= s.expiryHeight
    ensures ws' != [] && IsRun(c, ws', steps')
    ensures var w := Last(ws);
            var mine := s !in w.mined;
            var tip := if mine then w.tip + 1 else w.tip;
            && steps' == steps + [Pick(0, id), WriteAhead(reported, utxos, 0)] + (if mine then [Mine(s)] else [])
                               + [StartSweep([id]), ReadTip(tip), JudgeNext(Found(1))]
            && Last(ws') == w.(db := w.db.(payments := w.db.payments[id := Paid(w.db.payments[id], s)]), tip := tip,
                               built := w.built + {(id, s)}, mined := if mine then w.mined[s := tip] else w.mined,
                               sweepTip := Some(tip))
  {
    hide IsRun, Built, MarkedBroadcast, MarkedConfirmed, Sized;
    var w := Last(ws);
    ws', steps' := BroadcastOne(c, ws, steps, 0, id, reported, utxos, s);
    RunHasWorlds(c, ws', steps');
    BroadcastIs(w.db, id, s);
    if s !in w.mined {
      assert (id, s) in Last(ws').built;
      ws', steps' := Extend(c, ws', steps', Mine(s));
    }
    ws', steps' := ConfirmOne(c, ws', steps', id);
    RunHasWorlds(c, ws', steps');
    LedgerEmptied(w.db, id, s);
  }

  lemma FirstIsDue(db: Db, p: NewPayment, q: NewPayment)
    requires db.payments == map[1 := Queued(p), 2 := Queued(q)]
    ensures Due(db, 0, 1) && forall i :: Due(db, 0, i) ==> 1 <= i
  {
  }

  lemma SecondIsDue(db: Db, row: Row, q: NewPayment)
    requires db.payments == map[1 := row, 2 := Queued(q)] && row.status == Confirmed
    ensures Due(db, 0, 2) && forall i :: Due(db, 0, i) ==> 2 <= i
  {
  }

  lemma FirstPaid(c: Config, tip: int, p: NewPayment, q: NewPayment, s: Spend)
    returns (ws: seq<World>, steps: seq<Step>)
    requires c.Valid() && (p.rail, p.eventKey) != (q.rail, q.eventKey)
    requires ValidCode(p.code) && c.fee >= 0 && s == OfferSpend(c, tip, p.code, p.days)
    ensures steps == [Insert(p), Insert(q), Pick(0, 1), WriteAhead(tip, Offer(c, tip, p.days), 0), Mine(s),
                      StartSweep([1]), ReadTip(tip + 1), JudgeNext(Found(1))]
    ensures ws != [] && IsRun(c, ws, steps)
    ensures Last(ws) == World(Db(map[1 := Paid(Queued(p), s), 2 := Queued(q)], map[], 3), tip + 1, {(1, s)}, map[s := tip + 1],
                              0, None, [], Some(tip + 1))
  {
    hide IsRun, Built, Sized, Offer, ValidCode, MemoForCode, Paid;
    ws, steps := TwoInserted(c, tip, p, q);
    FirstIsDue(Last(ws).db, p, q);
    OfferBuilds(c, tip, Last(ws).db, Queued(p));
    hide Due;
    ws, steps := PayOne(c, ws, steps, 1, tip, Offer(c, tip, p.days), s);
    assert map[1 := Queued(p), 2 := Queued(q)][1 := Paid(Queued(p), s)] == map[1 := Paid(Queued(p), s), 2 := Queued(q)];
  }

  /** The explorer stalls: the second of two payments of one code and length is sized by the same height
      and offered the output the first one spent. It builds the first one's transaction over again, the
      node knows it as mined, and one payment in FLUX settles both. */
  lemma TwoPaymentsOneTransaction(c: Config, tip: int, p: NewPayment, q: NewPayment)
    returns (ws: seq<World>, steps: seq<Step>, s: Spend)
    requires c.Valid() && c.fee >= 0 && ValidCode(p.code) && q.code == p.code && q.days == p.days
    requires (p.rail, p.eventKey) != (q.rail, q.eventKey)
    ensures var utxos := Offer(c, tip, p.days);
            steps == [Insert(p), Insert(q), Pick(0, 1), WriteAhead(tip, utxos, 0), Mine(s), StartSweep([1]), ReadTip(tip + 1),
                      JudgeNext(Found(1)), Pick(0, 2), WriteAhead(tip, utxos, 0), StartSweep([2]), ReadTip(tip + 1), JudgeNext(Found(1))]
    ensures ws != [] && IsRun(c, ws, steps)
    ensures Last(ws).db.payments == map[1 := Paid(Queued(p), s), 2 := Paid(Queued(q), s)] && Last(ws).mined == map[s := tip + 1]
  {
    hide IsRun, ValidCode, Offer, OfferSpend, Built, Sized;
    s := OfferSpend(c, tip, p.code, p.days);
    ws, steps := FirstPaid(c, tip, p, q, s);
    var db := Db(map[1 := Paid(Queued(p), s), 2 := Queued(q)], map[], 3);
    SecondIsDue(db, Paid(Queued(p), s), q);
    OfferBuilds(c, tip, db, Queued(q));
    hide Due, Paid, Queued;
    ws, steps := PayOne(c, ws, steps, 2, tip, Offer(c, tip, p.days), s);
  }
}
