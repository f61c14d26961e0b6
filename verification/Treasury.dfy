/** Spending treasury outputs: bridge/src/flux/utxo.ts and the value arithmetic of bridge/src/flux/tx.ts. */
module Treasury {
  import opened Common
  import opened GrantRules

  /** Below this, change is folded into the fee. */
  const DUST_ZATS: int := 1000

  datatype Outpoint = Outpoint(txid: string, vout: nat)

  datatype Utxo = Utxo(outpoint: Outpoint, satoshis: nat)

  // ---------------------------------------------------------------- selection

  function Total(us: seq<Utxo>): nat {
    if us == [] then 0 else Total(us[..|us| - 1]) + us[|us| - 1].satoshis
  }

  function Usable(available: seq<Utxo>, excluded: set<Outpoint>): seq<Utxo> {
    if available == [] then []
    else
      var u := available[|available| - 1];
      Usable(available[..|available| - 1], excluded) + (if u.outpoint in excluded then [] else [u])
  }

  predicate Descending(us: seq<Utxo>) {
    forall i, j :: 0 <= i < j < |us| ==> us[i].satoshis >= us[j].satoshis
  }

  function InsertDescending(us: seq<Utxo>, u: Utxo): seq<Utxo> {
    if us == [] || us[|us| - 1].satoshis >= u.satoshis then us + [u]
    else InsertDescending(us[..|us| - 1], u) + [us[|us| - 1]]
  }

  /** Stable sort, largest first. */
  function LargestFirst(us: seq<Utxo>): seq<Utxo> {
    if us == [] then [] else InsertDescending(LargestFirst(us[..|us| - 1]), us[|us| - 1])
  }

  /** How many leading outputs it takes to reach `needed`; one too many if all of them do not. */
  function Reaching(us: seq<Utxo>, needed: int, n: nat): (k: nat)
    requires 1 <= n <= |us| + 1
    ensures n <= k <= |us| + 1
    decreases |us| - n
  {
    if n == |us| + 1 || Total(us[..n]) >= needed then n else Reaching(us, needed, n + 1)
  }

  /** The inputs chosen, or None for InsufficientFundsError. */
  function Select(available: seq<Utxo>, excluded: set<Outpoint>, needed: int): Option<seq<Utxo>> {
    var us := LargestFirst(Usable(available, excluded));
    var k := Reaching(us, needed, 1);
    if k <= |us| then Some(us[..k]) else None
  }

  method SelectUtxos(available: seq<Utxo>, excluded: set<Outpoint>, needed: int)
    returns (r: Option<seq<Utxo>>, total: nat)
    ensures r == Select(available, excluded, needed)
    ensures r.Some? ==> total == Total(r.value) && total >= needed
    ensures r.None? ==> total == Total(LargestFirst(Usable(available, excluded)))
  {
    hide LargestFirst, Usable, Total, Reaching;
    var usable := LargestFirst(Usable(available, excluded));
    var inputs: seq<Utxo> := [];
    total := 0;
    ReachingNext(usable, needed, 0);
    for i := 0 to |usable|
      invariant inputs == usable[..i] && total == Total(inputs)
      invariant Reaching(usable, needed, i + 1) == Reaching(usable, needed, 1)
    {
      var u := usable[i];
      ReachingNext(usable, needed, i + 1);
      TotalNext(usable, i);
      inputs := inputs + [u];
      total := total + u.satoshis;
      if total >= needed {
        return Some(inputs), total;
      }
    }
    assert usable[..|usable|] == usable;
    r := None;
  }

  lemma TotalNext(us: seq<Utxo>, i: nat)
    requires i < |us|
    ensures us[..i + 1] == us[..i] + [us[i]] && Total(us[..i + 1]) == Total(us[..i]) + us[i].satoshis
  {
    assert us[..i + 1][..i] == us[..i];
  }

  lemma ReachingNext(us: seq<Utxo>, needed: int, n: nat)
    requires n <= |us|
    ensures Total(us[..0]) == 0
    ensures 1 <= n ==> Reaching(us, needed, n) == (if Total(us[..n]) >= needed then n else Reaching(us, needed, n + 1))
    ensures Reaching(us, needed, |us| + 1) == |us| + 1
  {
  }

  // ---------------------------------------------------------------- how good the selection is

  /** The value of the outputs at the chosen positions below n. */
  function Picked(us: seq<Utxo>, chosen: set<nat>, n: nat): nat
    requires n <= |us|
  {
    if n == 0 then 0 else Picked(us, chosen, n - 1) + (if n - 1 in chosen then us[n - 1].satoshis else 0)
  }

  function Chosen(chosen: set<nat>, n: nat): nat {
    if n == 0 then 0 else Chosen(chosen, n - 1) + (if n - 1 in chosen then 1 else 0)
  }

  lemma {:induction false} ChosenBound(chosen: set<nat>, n: nat)
    ensures Chosen(chosen, n) <= |chosen|
    decreases n
  {
    if n > 0 {
      if n - 1 in chosen {
        ChosenBound(chosen - {n - 1}, n - 1);
        SameBelow(chosen, chosen - {n - 1}, n - 1);
      } else {
        ChosenBound(chosen, n - 1);
      }
    }
  }

  lemma {:induction false} SameBelow(a: set<nat>, b: set<nat>, n: nat)
    requires forall i :: 0 <= i < n ==> (i in a <==> i in b)
    ensures Chosen(a, n) == Chosen(b, n)
  {
    if n > 0 { SameBelow(a, b, n - 1); }
  }

  /** How far the outputs rise above v, together. */
  function Excess(us: seq<Utxo>, v: nat): nat {
    if us == [] then 0 else Excess(us[..|us| - 1], v) + Max(us[|us| - 1].satoshis - v, 0)
  }

  lemma {:induction false} PickedBound(us: seq<Utxo>, chosen: set<nat>, n: nat, v: nat)
    requires n <= |us|
    ensures Picked(us, chosen, n) <= Chosen(chosen, n) * v + Excess(us[..n], v)
  {
    if n > 0 {
      PickedBound(us, chosen, n - 1, v);
      assert us[..n][..n - 1] == us[..n - 1];
      var c := Chosen(chosen, n - 1);
      assert (c + 1) * v == c * v + v;
    }
  }

  lemma ExcessSnoc(us: seq<Utxo>, u: Utxo, v: nat)
    ensures Excess(us + [u], v) == Excess(us, v) + Max(u.satoshis - v, 0)
    ensures Total(us + [u]) == Total(us) + u.satoshis
  {
    assert (us + [u])[..|us + [u]| - 1] == us;
  }

  lemma {:induction false} InsertOrders(us: seq<Utxo>, u: Utxo)
    requires Descending(us)
    ensures Descending(InsertDescending(us, u))
    ensures forall x :: x in InsertDescending(us, u) <==> x in us || x == u
  {
    if us != [] && us[|us| - 1].satoshis < u.satoshis {
      var front, last := us[..|us| - 1], us[|us| - 1];
      assert us == front + [last];
      InsertOrders(front, u);
      var r := InsertDescending(front, u);
      forall i | 0 <= i < |r| ensures r[i].satoshis >= last.satoshis {
        assert r[i] in r;
      }
    }
  }

  lemma {:induction false} InsertSums(us: seq<Utxo>, u: Utxo, v: nat)
    ensures |InsertDescending(us, u)| == |us| + 1
    ensures Excess(InsertDescending(us, u), v) == Excess(us, v) + Max(u.satoshis - v, 0)
    ensures Total(InsertDescending(us, u)) == Total(us) + u.satoshis
  {
    if us == [] || us[|us| - 1].satoshis >= u.satoshis {
      ExcessSnoc(us, u, v);
    } else {
      InsertSums(us[..|us| - 1], u, v);
      ExcessSnoc(InsertDescending(us[..|us| - 1], u), us[|us| - 1], v);
    }
  }

  lemma EmptyDescends()
    ensures Descending([])
  {
  }

  lemma {:induction false} SortKeeps(us: seq<Utxo>, v: nat)
    ensures Descending(LargestFirst(us)) && |LargestFirst(us)| == |us|
    ensures forall x :: x in LargestFirst(us) <==> x in us
    ensures Excess(LargestFirst(us), v) == Excess(us, v) && Total(LargestFirst(us)) == Total(us)
  {
    hide Descending, Excess, Total, InsertDescending;
    if us == [] {
      EmptyDescends();
    } else {
      SortKeeps(us[..|us| - 1], v);
      InsertOrders(LargestFirst(us[..|us| - 1]), us[|us| - 1]);
      InsertSums(LargestFirst(us[..|us| - 1]), us[|us| - 1], v);
      ExcessSnoc(us[..|us| - 1], us[|us| - 1], v);
      assert us == us[..|us| - 1] + [us[|us| - 1]];
    }
  }

  /** In a descending list, everything past position k rises above the k-th value by nothing. */
  lemma {:induction false} ExcessOfTop(us: seq<Utxo>, k: nat)
    requires Descending(us) && k < |us|
    ensures Excess(us, us[k].satoshis) + k * us[k].satoshis == Total(us[..k])
  {
    var v := us[k].satoshis;
    TopAll(us, k, v);
    RestNothing(us, k, |us|);
    assert us[..|us|] == us;
  }

  lemma {:induction false} TopAll(us: seq<Utxo>, k: nat, v: nat)
    requires k <= |us| && forall i :: 0 <= i < k ==> us[i].satoshis >= v
    ensures Excess(us[..k], v) + k * v == Total(us[..k])
  {
    if k > 0 {
      TopAll(us, k - 1, v);
      assert us[..k][..k - 1] == us[..k - 1];
      assert k * v == (k - 1) * v + v;
    }
  }

  lemma {:induction false} RestNothing(us: seq<Utxo>, k: nat, n: nat)
    requires Descending(us) && k < |us| && k <= n <= |us|
    ensures Excess(us[..n], us[k].satoshis) == Excess(us[..k], us[k].satoshis)
  {
    if n > k {
      RestNothing(us, k, n - 1);
      assert us[..n][..n - 1] == us[..n - 1];
    }
  }

  lemma {:induction false} ReachingMeans(us: seq<Utxo>, needed: int, n: nat)
    requires 1 <= n <= |us| + 1
    ensures Reaching(us, needed, n) <= |us| ==> Total(us[..Reaching(us, needed, n)]) >= needed
    ensures forall m :: n <= m < Reaching(us, needed, n) ==> Total(us[..m]) < needed
    decreases |us| - n
  {
    if n <= |us| && Total(us[..n]) < needed { ReachingMeans(us, needed, n + 1); }
  }

  /** Selection fails exactly when there is nothing usable or the usable outputs together fall short. */
  lemma SelectFailsIff(available: seq<Utxo>, excluded: set<Outpoint>, needed: int)
    ensures Select(available, excluded, needed).None?
      <==> Usable(available, excluded) == [] || Total(Usable(available, excluded)) < needed
  {
    var usable := Usable(available, excluded);
    var us := LargestFirst(usable);
    SortKeeps(usable, 0);
    ReachingMeans(us, needed, 1);
    assert us[..|us|] == us;
    if Reaching(us, needed, 1) == |us| + 1 && us != [] {
      assert Total(us[..|us|]) < needed;
    }
    if us != [] { TotalGrows(us, Reaching(us, needed, 1)); }
  }

  lemma {:induction false} TotalGrows(us: seq<Utxo>, k: nat)
    ensures k <= |us| ==> Total(us[..k]) <= Total(us)
    decreases |us|
  {
    if k < |us| {
      TotalGrows(us[..|us| - 1], k);
      assert us[..|us| - 1][..k] == us[..k];
    } else if k == |us| {
      assert us[..k] == us;
    }
  }

  /** No choice of usable outputs that covers a positive amount has fewer of them. */
  lemma SelectFewest(available: seq<Utxo>, excluded: set<Outpoint>, needed: int, chosen: set<nat>)
    requires needed > 0 && Select(available, excluded, needed).Some?
    requires Picked(Usable(available, excluded), chosen, |Usable(available, excluded)|) >= needed
    ensures |Select(available, excluded, needed).value| <= |chosen|
  {
    var usable := Usable(available, excluded);
    var us := LargestFirst(usable);
    var k := Reaching(us, needed, 1) - 1;
    SortKeeps(usable, us[k].satoshis);
    var v := us[k].satoshis;
    var c := Chosen(chosen, |usable|);
    PickedBound(usable, chosen, |usable|, v);
    assert usable[..|usable|] == usable;
    ExcessOfTop(us, k);
    ChosenBound(chosen, |usable|);
    assert Total(us[..k]) < needed by {
      ReachingMeans(us, needed, 1);
      if k == 0 { assert us[..0] == []; }
    }
    if c <= k {
      TimesMonotone(c, k, v);
    }
  }

  lemma TimesMonotone(c: nat, k: nat, v: nat)
    requires c <= k
    ensures c * v <= k * v
  {
  }

  /** What is selected is usable: offered, and held by no transaction in flight. */
  lemma SelectedUsable(available: seq<Utxo>, excluded: set<Outpoint>, needed: int, i: nat)
    requires Select(available, excluded, needed).Some? && i < |Select(available, excluded, needed).value|
    ensures Select(available, excluded, needed).value[i] in available
    ensures Select(available, excluded, needed).value[i].outpoint !in excluded
    ensures Select(available, excluded, needed).value != []
  {
    var usable := Usable(available, excluded);
    SortKeeps(usable, 0);
    assert Select(available, excluded, needed).value[i] in LargestFirst(usable);
    UsableMembers(available, excluded);
  }

  lemma {:induction false} UsableMembers(available: seq<Utxo>, excluded: set<Outpoint>)
    ensures forall u :: u in Usable(available, excluded) <==> u in available && u.outpoint !in excluded
  {
    if available != [] {
      UsableMembers(available[..|available| - 1], excluded);
      assert available == available[..|available| - 1] + [available[|available| - 1]];
    }
  }

  // ---------------------------------------------------------------- the transaction

  /** A signed payment transaction; its txid is modelled by the transaction itself. */
  datatype Spend = Spend(inputs: seq<Outpoint>, amountZats: int, memo: string, changeZats: int, expiryHeight: int)

  function Outpoints(us: seq<Utxo>): (os: seq<Outpoint>)
    ensures |os| == |us| && forall i :: 0 <= i < |us| ==> os[i] == us[i].outpoint
  {
    seq(|us|, i requires 0 <= i < |us| => us[i].outpoint)
  }

  /** None is the throw when the inputs do not cover amount and fee. */
  function BuildSpend(inputs: seq<Utxo>, amount: int, memo: string, fee: int, tip: int): Option<Spend> {
    var change := Total(inputs) - amount - fee;
    if change < 0 then None
    else Some(Spend(Outpoints(inputs), amount, memo, if change >= DUST_ZATS then change else 0, tip + EXPIRY_DELTA))
  }

  /** The transaction is built exactly when the inputs cover amount and fee; then payment, change and a
      fee below feeZats + 1000 add up to the inputs. */
  lemma ValueConserved(inputs: seq<Utxo>, amount: int, memo: string, fee: int, tip: int)
    ensures BuildSpend(inputs, amount, memo, fee, tip).Some? <==> Total(inputs) >= amount + fee
    ensures BuildSpend(inputs, amount, memo, fee, tip).Some? ==>
              var s := BuildSpend(inputs, amount, memo, fee, tip).value;
              var paidFee := Total(inputs) - s.amountZats - s.changeZats;
              && s.amountZats == amount && s.memo == memo && fee <= paidFee < fee + DUST_ZATS
              && (s.changeZats == 0 || s.changeZats >= DUST_ZATS)
              && s.expiryHeight == tip + EXPIRY_DELTA
              && |s.inputs| == |inputs| && forall i :: 0 <= i < |inputs| ==> s.inputs[i] == inputs[i].outpoint
  {
  }
}
