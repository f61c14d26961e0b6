/** Nothing the bridge has queued for a valid code is ever stuck: from every world of every run each such
    payment can still be confirmed. */
module SettlementProgress {
  import opened Arithmetic
  import opened Common
  import opened PriceSchedule
  import opened GrantRules
  import opened PaymentCodes
  import opened Treasury
  import opened Payments
  import opened Settlement
  import opened SettlementOwners

  // ---------------------------------------------------------------- an expired payment comes back

  /** A broadcast transaction that is not on the chain 20 blocks past its expiry is given up: its row is due
      again at once, without it, and every output it held is free. */
  lemma ExpiredComesBack(c: Config, ws: seq<World>, steps: seq<Step>, id: nat)
    returns (ws': seq<World>, steps': seq<Step>)
    requires ws != [] && IsRun(c, ws, steps) && BroadcastRow(Last(ws).db, id) && Last(ws).sweep == []
    requires Last(ws).db.payments[id].tx.Some? ==>
               Last(ws).db.payments[id].tx.value !in Last(ws).mined && Last(ws).tip > Last(ws).db.payments[id].tx.value.expiryHeight + 20
    ensures steps' == steps + [StartSweep([id]), ReadTip(Last(ws).tip), JudgeNext(NotFound)] && ws' != [] && IsRun(c, ws', steps')
    ensures Last(ws).db.payments[id].tx.Some?
    ensures var w, db := Last(ws), Last(ws').db;
            && Last(ws') == w.(db := db, sweepTip := Some(w.tip))
            && db.payments == w.db.payments[id := w.db.payments[id].(status := Pending, tx := None, raw := None, expiry := None, nextRetryAt := 0)]
            && (forall o :: o in w.db.payments[id].tx.value.inputs && o in db.spent ==> db.spent[o] != w.db.payments[id].tx.value)
            && (forall o :: o in db.spent <==> o in w.db.spent && w.db.spent[o] != w.db.payments[id].tx.value)
  {
    hide IsRun;
    var w := Last(ws);
    ShapeOf(c, ws, steps, id);
    var ws1, steps1 := Extend(c, ws, steps, StartSweep([id]));
    assert Last(ws1).sweep == [ReadRow(id, w.db.payments[id])];
    var ws2, steps2 := Extend(c, ws1, steps1, ReadTip(w.tip));
    ws', steps' := Extend(c, ws2, steps2, JudgeNext(NotFound));
  }

  /** What the confirmer does with a broadcast row of any run: seen in a block, it is settled; unknown to the
      chain, it is given up 20 blocks past its expiry and its own bytes are pushed again until then; anything
      else decides nothing. */
  lemma FateOfBroadcast(c: Config, ws: seq<World>, steps: seq<Step>, id: nat, tip: int, answer: Lookup)
    requires ws != [] && IsRun(c, ws, steps) && BroadcastRow(Last(ws).db, id)
    ensures var row := Last(ws).db.payments[id];
            && row.tx.Some? && row.raw == row.tx
            && Judge(row, tip, answer) ==
                 match answer
                 case LookupFailed => Wait
                 case Found(confirmations) => if confirmations == 0 then Wait else Confirm
                 case NotFound => if tip <= row.tx.value.expiryHeight + 20 then Resend else Reset
  {
    ShapeOf(c, ws, steps, id);
  }

  // ---------------------------------------------------------------- getting to a row's turn

  /** Empty blocks up to a height. */
  lemma {:induction false} WaitUntil(c: Config, ws: seq<World>, steps: seq<Step>, height: int)
    returns (ws': seq<World>, steps': seq<Step>)
    requires ws != [] && IsRun(c, ws, steps) && Last(ws).picked.None?
    ensures steps <= steps' && ws' != [] && IsRun(c, ws', steps') && Last(ws') == Last(ws).(tip := Max(Last(ws).tip, height))
    decreases height - Last(ws).tip
  {
    hide IsRun;
    ws', steps' := ws, steps;
    if Last(ws).tip < height {
      ws', steps' := Extend(c, ws, steps, EmptyBlock);
      ws', steps' := WaitUntil(c, ws', steps', height);
    }
  }

  /** A row parked at `now` is not due then any more. */
  lemma ParkedIsNotDue(db: Db, id: nat, attempts: nat, now: int)
    requires id in db.payments
    ensures var after := FailureRecorded(db, id, attempts, now);
            && !Due(after, now, id) && after.spent == db.spent && after.payments.Keys == db.payments.Keys
            && forall k :: k in db.payments && k != id ==> after.payments[k] == db.payments[k]
  {
    Backoff(db, id, attempts, now);
    hide FailureRecorded, Power;
  }

  /** The rows below id, all pending payments before it in the queue, have their chain reads fail. */
  lemma {:induction false} ParkBelow(c: Config, ws: seq<World>, steps: seq<Step>, now: int, id: nat, j: nat)
    returns (ws': seq<World>, steps': seq<Step>)
    requires ws != [] && IsRun(c, ws, steps) && Last(ws).picked.None? && j <= id
    requires forall k: nat :: k < j ==> !Due(Last(ws).db, now, k)
    ensures steps <= steps' && ws' != [] && IsRun(c, ws', steps')
    ensures var w, w' := Last(ws), Last(ws');
            && w' == w.(db := w'.db) && w'.db.spent == w.db.spent && w'.db.payments.Keys == w.db.payments.Keys
            && (forall k :: k in w.db.payments && k >= id ==> w'.db.payments[k] == w.db.payments[k])
            && (forall k: nat :: k < id ==> !Due(w'.db, now, k))
    decreases id - j
  {
    hide IsRun, Due, FailureRecorded;
    ws', steps' := ws, steps;
    if j < id {
      if Due(Last(ws).db, now, j) {
        ws', steps' := ParkOne(c, ws, steps, now, j);
      }
      ws', steps' := ParkBelow(c, ws', steps', now, id, j + 1);
    }
  }

  lemma ParkOne(c: Config, ws: seq<World>, steps: seq<Step>, now: int, j: nat)
    returns (ws': seq<World>, steps': seq<Step>)
    requires ws != [] && IsRun(c, ws, steps) && Last(ws).picked.None?
    requires Due(Last(ws).db, now, j) && forall k: nat :: k < j ==> !Due(Last(ws).db, now, k)
    ensures steps <= steps' && ws' != [] && IsRun(c, ws', steps')
    ensures var w, w' := Last(ws), Last(ws');
            && w' == w.(db := w'.db) && w'.db.spent == w.db.spent && w'.db.payments.Keys == w.db.payments.Keys
            && (forall k :: k in w.db.payments && k != j ==> w'.db.payments[k] == w.db.payments[k])
            && (forall k: nat :: k <= j ==> !Due(w'.db, now, k))
  {
    hide IsRun, FailureRecorded;
    var w := Last(ws);
    ParkedIsNotDue(w.db, j, w.db.payments[j].attempts, now);
    ws', steps' := Extend(c, ws, steps, Pick(now, j));
    ws', steps' := Extend(c, ws', steps', ReadsFail(now));
  }

  // ---------------------------------------------------------------- an output to pay with

  lemma {:induction false} FreshOutput(held: set<Outpoint>) returns (n: nat)
    ensures forall o :: o in held ==> o.vout < n
    decreases held
  {
    n := 0;
    if held != {} {
      var o :| o in held;
      var m := FreshOutput(held - {o});
      n := if m > o.vout then m else o.vout + 1;
    }
  }

  /** With one large enough output that is not held, what is built spends it. */
  lemma BuiltOnOne(c: Config, db: Db, row: Row, s: Schedule, tip: int, o: Outpoint) returns (u: Utxo, spend: Spend)
    requires s.Valid() && ValidCode(row.code) && o !in db.spent
    ensures Built(db, row, s, c.fee, tip, [u]) == Some(spend) && spend.inputs == [o] && spend.expiryHeight == tip + EXPIRY_DELTA
  {
    hide Sized, ValidCode, Select, Total;
    var needed := Sized(s, tip, row.days) + c.fee;
    u := Utxo(o, Max(needed, 0));
    SelectOnly(u, db.spent.Keys, needed);
    spend := Built(db, row, s, c.fee, tip, [u]).value;
    assert Outpoints([u]) == [o];
  }

  lemma SelectOnly(u: Utxo, held: set<Outpoint>, needed: int)
    requires u.satoshis >= needed && u.outpoint !in held
    ensures Select([u], held, needed) == Some([u]) && Total([u]) == u.satoshis
  {
    var us := [u];
    assert us[..0] == [] && us[..1] == us;
    assert Usable(us, held) == [] + us == us && LargestFirst(us) == [] + us == us;
  }

  /** Every output held in the ledger or spent on the chain. */
  ghost function Taken(w: World): set<Outpoint> {
    w.db.spent.Keys + set s, o | s in w.mined && o in s.inputs :: o
  }

  lemma MinedIsTaken(w: World, s: Spend, o: Outpoint)
    requires o in s.inputs && o !in Taken(w)
    ensures s !in w.mined
  {
  }

  // ---------------------------------------------------------------- and to confirmed

  lemma MineAndConfirm(c: Config, ws: seq<World>, steps: seq<Step>, id: nat)
    returns (ws': seq<World>, steps': seq<Step>)
    requires ws != [] && IsRun(c, ws, steps) && Last(ws).picked.None? && Last(ws).sweep == [] && BroadcastRow(Last(ws).db, id)
    requires Last(ws).db.payments[id].tx.Some? && (id, Last(ws).db.payments[id].tx.value) in Last(ws).built
    requires Last(ws).db.payments[id].tx.value in Last(ws).mined || Last(ws).tip + 1 <= Last(ws).db.payments[id].tx.value.expiryHeight
    ensures steps <= steps' && ws' != [] && IsRun(c, ws', steps')
    ensures id in Last(ws').db.payments && Last(ws').db.payments[id].status == Confirmed
            && Last(ws').db.payments[id].tx == Last(ws).db.payments[id].tx
  {
    hide IsRun;
    var s := Last(ws).db.payments[id].tx.value;
    ws', steps' := ws, steps;
    if s !in Last(ws).mined {
      ws', steps' := Extend(c, ws, steps, Mine(s));
    }
    ws', steps' := ConfirmOne(c, ws', steps', id);
    RunHasWorlds(c, ws', steps');
  }

  lemma PayPending(c: Config, ws: seq<World>, steps: seq<Step>, id: nat)
    returns (ws': seq<World>, steps': seq<Step>)
    requires ws != [] && IsRun(c, ws, steps) && Last(ws).picked.None? && Last(ws).sweep == []
    requires id in Last(ws).db.payments && Last(ws).db.payments[id].status == Pending && ValidCode(Last(ws).db.payments[id].code)
    ensures steps <= steps' && ws' != [] && IsRun(c, ws', steps')
    ensures id in Last(ws').db.payments && Last(ws').db.payments[id].status == Confirmed
            && Last(ws').db.payments[id].tx.Some? && Last(ws').db.payments[id].tx.value !in Last(ws).mined
  {
    hide IsRun, ValidCode, Built, Sized;
    var now := Last(ws).db.payments[id].nextRetryAt;
    NoneBelow(Last(ws).db, now);
    ws', steps' := ParkBelow(c, ws, steps, now, id, 0);
    var w := Last(ws');
    var n := FreshOutput(Taken(w));
    var o := Outpoint("coin", n);
    ScheduleIsValid(c, ws', steps');
    var u, s := BuiltOnOne(c, w.db, w.db.payments[id], c.Sched(w.epoch), w.tip, o);
    ws', steps' := BroadcastOne(c, ws', steps', now, id, w.tip, [u], s);
    RunHasWorlds(c, ws', steps');
    BroadcastIs(w.db, id, s);
    hide MarkedBroadcast;
    MinedIsTaken(w, s, o);
    ws', steps' := MineAndConfirm(c, ws', steps', id);
  }

  lemma NoneBelow(db: Db, now: int)
    ensures forall k: nat :: k < 0 ==> !Due(db, now, k)
  {
  }

  lemma ScheduleIsValid(c: Config, ws: seq<World>, steps: seq<Step>)
    requires IsRun(c, ws, steps)
    ensures c.Valid()
  {
  }

  /** Liveness: from every world of every run, whatever failed, expired, crashed or was repriced before, a
      payment for a valid code can be continued to confirmed: by its transaction in flight, or, unless that is
      mined or still can be, by a new one. */
  lemma CanBeConfirmed(c: Config, ws: seq<World>, steps: seq<Step>, id: nat)
    returns (ws': seq<World>, steps': seq<Step>)
    requires ws != [] && IsRun(c, ws, steps)
    requires id in Last(ws).db.payments && ValidCode(Last(ws).db.payments[id].code)
    ensures steps <= steps' && ws' != [] && IsRun(c, ws', steps')
    ensures id in Last(ws').db.payments && Last(ws').db.payments[id].status == Confirmed
    ensures var tx, tx' := Last(ws).db.payments[id].tx, Last(ws').db.payments[id].tx;
            tx'.Some? && (tx.Some? && !Dead(Last(ws), tx.value) ==> tx' == tx) && (tx' == tx || tx'.value !in Last(ws).mined)
  {
    hide IsRun, ValidCode;
    var w := Last(ws);
    ws', steps' := ws, steps;
    ShapeOf(c, ws, steps, id);
    if w.db.payments[id].status != Confirmed {
      ws', steps' := Extend(c, ws, steps, Crash);
      if w.db.payments[id].status == Pending {
        ws', steps' := PayPending(c, ws', steps', id);
      } else {
        var s := w.db.payments[id].tx.value;
        if !Dead(w, s) {
          ws', steps' := MineAndConfirm(c, ws', steps', id);
        } else {
          ws', steps' := WaitUntil(c, ws', steps', s.expiryHeight + 21);
          ws', steps' := ExpiredComesBack(c, ws', steps', id);
          ws', steps' := PayPending(c, ws', steps', id);
        }
      }
    }
  }

  lemma ShapeOf(c: Config, ws: seq<World>, steps: seq<Step>, id: nat)
    requires ws != [] && IsRun(c, ws, steps) && id in Last(ws).db.payments
    ensures RowShape(Last(ws), id)
    ensures Last(ws).picked.Some? ==> Last(ws).picked.value in Last(ws).db.payments
  {
    RunKeeps(c, ws, steps, |steps|);
    hide BuildShape, LedgerInv, KeyInv;
  }
}
