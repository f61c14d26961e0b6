/** The meaning of a payment history: the in-order fold of grants under a price schedule
    (gateway/internal/entitle/entitle.go, gateway/internal/entitle/snapshot.go). */
module PaymentFold {
  import opened Arithmetic
  import opened Common
  import opened PriceSchedule
  import opened GrantRules

  const MEMO_PREFIX: string := "CVPN1:"

  /** One transaction paying the address; `seconds` is its block time, `zats` the total paid. */
  datatype Tx = Tx(txid: string, height: int, seconds: nat, zats: nat, memos: seq<string>)

  /** code -> paid_until */
  type Ledger = map<string, int>

  function Time(tx: Tx): int {
    tx.seconds * SECOND
  }

  // ---------------------------------------------------------------- memos

  /** unicode.IsSpace. */
  predicate GoSpace(c: char) {
    var x := c as int;
    || 0x09 <= x <= 0x0d || x == 0x20 || x == 0x85 || x == 0xa0 || x == 0x1680 || 0x2000 <= x <= 0x200a
    || x == 0x2028 || x == 0x2029 || x == 0x202f || x == 0x205f || x == 0x3000
  }

  function TrimSpace(s: string): string {
    if s != [] && GoSpace(s[0]) then TrimSpace(s[1..])
    else if s != [] && GoSpace(s[|s| - 1]) then TrimSpace(s[..|s| - 1])
    else s
  }

  /** The codes of the CVPN1 memos, in order. */
  function Codes(memos: seq<string>): seq<string> {
    if memos == [] then []
    else
      var m := memos[|memos| - 1];
      Codes(memos[..|memos| - 1]) + (if MEMO_PREFIX <= m then [TrimSpace(m[|MEMO_PREFIX|..])] else [])
  }

  /** Exactly one CVPN1 memo, with a code in it. */
  function MemoParse(memos: seq<string>): Option<string> {
    var codes := Codes(memos);
    if |codes| == 1 && codes[0] != "" then Some(codes[0]) else None
  }

  /** The loop, which stops at the first empty code. */
  method MemoParseLoop(memos: seq<string>) returns (r: Option<string>)
    ensures r == MemoParse(memos)
  {
    var found, n := "", 0;
    for i := 0 to |memos|
      invariant n == |Codes(memos[..i])|
      invariant n > 0 ==> found == Codes(memos[..i])[n - 1] && found != ""
    {
      assert memos[..i + 1][..i] == memos[..i];
      var m := memos[i];
      if !(MEMO_PREFIX <= m) {
        continue;
      }
      var code := TrimSpace(m[|MEMO_PREFIX|..]);
      if code == "" {
        EmptyCodeFails(memos, i);
        return None;
      }
      found := code;
      n := n + 1;
    }
    assert memos[..|memos|] == memos;
    r := if n == 1 then Some(found) else None;
  }

  lemma {:induction false} CodesGrow(memos: seq<string>, i: nat)
    requires i <= |memos|
    ensures |Codes(memos[..i])| <= |Codes(memos)| && Codes(memos[..i]) == Codes(memos)[..|Codes(memos[..i])|]
    decreases |memos| - i
  {
    if i < |memos| {
      assert memos[..i + 1][..i] == memos[..i];
      CodesGrow(memos, i + 1);
    } else {
      assert memos[..i] == memos;
    }
  }

  lemma EmptyCodeFails(memos: seq<string>, i: nat)
    requires i < |memos| && MEMO_PREFIX <= memos[i] && TrimSpace(memos[i][|MEMO_PREFIX|..]) == ""
    ensures MemoParse(memos) == None
  {
    assert memos[..i + 1][..i] == memos[..i];
    CodesGrow(memos, i + 1);
    var n := |Codes(memos[..i + 1])|;
    assert Codes(memos)[n - 1] == "";
  }

  predicate AllGoSpace(s: string) {
    forall i :: 0 <= i < |s| ==> GoSpace(s[i])
  }

  /** Trimming takes off the white space around and nothing else. */
  lemma {:induction false} TrimmedIs(s: string) returns (a: string, b: string)
    ensures AllGoSpace(a) && AllGoSpace(b) && s == a + TrimSpace(s) + b
    ensures var t := TrimSpace(s); t != "" ==> !GoSpace(t[0]) && !GoSpace(t[|t| - 1])
    decreases |s|
  {
    hide GoSpace;
    a, b := "", "";
    if s != "" && GoSpace(s[0]) {
      a, b := TrimmedIs(s[1..]);
      a := [s[0]] + a;
      assert s == [s[0]] + s[1..];
    } else if s != "" && GoSpace(s[|s| - 1]) {
      a, b := TrimmedIs(s[..|s| - 1]);
      b := b + [s[|s| - 1]];
      assert s == s[..|s| - 1] + [s[|s| - 1]];
    }
  }

  /** The one memo that counts. */
  ghost predicate OnlyMemo(memos: seq<string>, i: nat, code: string)
    requires i < |memos|
  {
    && MEMO_PREFIX <= memos[i] && TrimSpace(memos[i][6..]) == code
    && forall j :: 0 <= j < |memos| && j != i ==> !(MEMO_PREFIX <= memos[j])
  }

  /** A payment names a code exactly if one and only one of its memos starts with CVPN1: and the rest, trimmed,
      is that code and not empty. */
  lemma MemoIff(memos: seq<string>, code: string)
    ensures MemoParse(memos) == Some(code) <==> code != "" && exists i: nat :: i < |memos| && OnlyMemo(memos, i, code)
  {
    hide TrimSpace;
    if i: nat :| i < |memos| && OnlyMemo(memos, i, code) {
      OneCode(memos, i);
    }
    if MemoParse(memos) == Some(code) {
      var i := SomeCode(memos);
      OneCodeAt(memos, i);
      assert Codes(memos)[0] == code && OnlyMemo(memos, i, code);
    }
  }

  lemma {:induction false} NoCodes(memos: seq<string>)
    ensures Codes(memos) == [] <==> forall j :: 0 <= j < |memos| ==> !(MEMO_PREFIX <= memos[j])
  {
    hide TrimSpace;
    if memos != [] { NoCodes(memos[..|memos| - 1]); }
  }

  lemma {:induction false} OneCode(memos: seq<string>, i: nat)
    requires i < |memos| && MEMO_PREFIX <= memos[i] && forall j :: 0 <= j < |memos| && j != i ==> !(MEMO_PREFIX <= memos[j])
    ensures Codes(memos) == [TrimSpace(memos[i][6..])]
  {
    hide TrimSpace;
    var n := |memos| - 1;
    if i == n { NoCodes(memos[..n]); } else { OneCode(memos[..n], i); }
  }

  lemma {:induction false} SomeCode(memos: seq<string>) returns (i: nat)
    requires Codes(memos) != []
    ensures i < |memos| && MEMO_PREFIX <= memos[i]
  {
    hide TrimSpace;
    var n := |memos| - 1;
    if MEMO_PREFIX <= memos[n] { i := n; } else { i := SomeCode(memos[..n]); }
  }

  lemma {:induction false} OneCodeAt(memos: seq<string>, i: nat)
    requires |Codes(memos)| == 1 && i < |memos| && MEMO_PREFIX <= memos[i]
    ensures Codes(memos) == [TrimSpace(memos[i][6..])] && forall j :: 0 <= j < |memos| && j != i ==> !(MEMO_PREFIX <= memos[j])
  {
    hide TrimSpace;
    var n := |memos| - 1;
    if MEMO_PREFIX <= memos[n] {
      NoCodes(memos[..n]);
    } else {
      OneCodeAt(memos[..n], i);
    }
  }

  // ---------------------------------------------------------------- one grant

  /** The code a payment credits and the days it buys there, under a schedule. */
  function Worth(tx: Tx, s: Schedule): Option<(string, int)>
    requires s.Valid()
  {
    PositivePrice(s, tx.height);
    var p := Effective(s, tx.height);
    if !PaysADay(tx.zats, p) then None
    else
      match MemoParse(tx.memos)
      case None => None
      case Some(code) => if DaysGranted(tx.zats, p) < 1 then None else Some((code, DaysGranted(tx.zats, p)))
  }

  function Get(m: Ledger, code: string): int {
    if code in m then m[code] else ZERO_TIME
  }

  function Grant(m: Ledger, tx: Tx, s: Schedule): Ledger
    requires s.Valid()
  {
    match Worth(tx, s)
    case None => m
    case Some((code, days)) => m[code := Stack(Get(m, code), days, Time(tx))]
  }

  /** The payment history's meaning: every grant in order, from an empty ledger. */
  function Fold(txs: seq<Tx>, s: Schedule): Ledger
    requires s.Valid()
  {
    if txs == [] then map[] else Grant(Fold(txs[..|txs| - 1], s), txs[|txs| - 1], s)
  }

  lemma FoldNext(txs: seq<Tx>, tx: Tx, s: Schedule)
    requires s.Valid()
    ensures Fold(txs + [tx], s) == Grant(Fold(txs, s), tx, s)
  {
    assert (txs + [tx])[..|txs + [tx]| - 1] == txs;
  }

  // ---------------------------------------------------------------- what a code is credited

  /** The grants a history makes to a code, oldest first, each at its payment's block time. */
  function CreditsOf(txs: seq<Tx>, s: Schedule, code: string): seq<Credit>
    requires s.Valid()
  {
    if txs == [] then []
    else
      var before, worth := CreditsOf(txs[..|txs| - 1], s, code), Worth(txs[|txs| - 1], s);
      if worth.Some? && worth.value.0 == code then before + [Credit(worth.value.1, Time(txs[|txs| - 1]))] else before
  }

  /** The ledger's meaning code by code: a code is in it exactly if some payment credits it, and its
      paid_until is all its grants stacked, each on what the ones before left. Other payments do not matter. */
  lemma {:induction false} FoldIsStacked(txs: seq<Tx>, s: Schedule, code: string)
    requires s.Valid()
    ensures Get(Fold(txs, s), code) == StackAll(ZERO_TIME, CreditsOf(txs, s, code))
    ensures code in Fold(txs, s) <==> CreditsOf(txs, s, code) != []
  {
    hide Worth, Stack;
    if txs != [] {
      var front, tx := txs[..|txs| - 1], txs[|txs| - 1];
      FoldIsStacked(front, s, code);
      var before, worth := CreditsOf(front, s, code), Worth(tx, s);
      if worth.Some? && worth.value.0 == code {
        var g := Credit(worth.value.1, Time(tx));
        assert (before + [g])[..|before + [g]| - 1] == before;
      }
    }
  }

  /** In closed form: one clamp of the zero time, computed from the code's own payments. */
  lemma FoldIsClamp(txs: seq<Tx>, s: Schedule, code: string)
    requires s.Valid() && CreditsOf(txs, s, code) != []
    ensures code in Fold(txs, s) && Fold(txs, s)[code] == ClampOf(CreditsOf(txs, s, code)).Apply(ZERO_TIME)
  {
    hide Fold, CreditsOf, ClampOf, StackAll, Clamp.Apply;
    FoldIsStacked(txs, s, code);
    StacksAsClamp(ZERO_TIME, CreditsOf(txs, s, code));
  }

  /** Chain order: block times never fall. */
  predicate TimesRise(txs: seq<Tx>) {
    forall i, j :: 0 <= i < j < |txs| ==> txs[i].seconds <= txs[j].seconds
  }

  lemma {:induction false} CreditsInOrder(txs: seq<Tx>, s: Schedule, code: string)
    requires s.Valid() && TimesRise(txs) && NoOverflow(txs, s)
    ensures var gs := CreditsOf(txs, s, code);
            InOrder(gs) && NoneWraps(gs) && (txs != [] && gs != [] ==> gs[|gs| - 1].time <= Time(txs[|txs| - 1]))
    ensures forall g :: g in CreditsOf(txs, s, code) ==> g.time >= 0
  {
    hide Worth, DaysNs;
    if txs != [] {
      var n := |txs| - 1;
      CreditsInOrder(txs[..n], s, code);
      var before, worth := CreditsOf(txs[..n], s, code), Worth(txs[n], s);
      if n > 0 { assert txs[n - 1].seconds <= txs[n].seconds; }
      if worth.Some? && worth.value.0 == code {
        WorthDays(txs[n], s);
        ShortGrantFits(worth.value.1);
      }
    }
  }

  lemma WorthDays(tx: Tx, s: Schedule)
    requires s.Valid() && Worth(tx, s).Some?
    ensures Worth(tx, s).value.1 >= 1
  {
  }

  /** A payment's days come on top of what is still paid, or of its own block time, up to the cap. */
  lemma PayingAdds(txs: seq<Tx>, tx: Tx, s: Schedule, code: string)
    requires s.Valid() && NoOverflow(txs + [tx], s)
    requires Worth(tx, s).Some? && Worth(tx, s).value.0 == code
    ensures Get(Fold(txs + [tx], s), code)
         == Min(Max(Get(Fold(txs, s), code), Time(tx)) + Worth(tx, s).value.1 * DAY, Time(tx) + MAX_PREPAID)
    ensures forall other :: other != code ==> Get(Fold(txs + [tx], s), other) == Get(Fold(txs, s), other)
  {
    assert (txs + [tx])[|txs|] == tx;
    WorthDays(tx, s);
    FoldNext(txs, tx, s);
    hide Worth, Fold;
    ShortGrantFits(Worth(tx, s).value.1);
  }

  /** Over histories in chain order without oversized grants, one more payment never lowers any code's
      paid_until, and no code is ever paid past 720 days from the last block. */
  lemma PayingNeverLowers(txs: seq<Tx>, s: Schedule, code: string)
    requires s.Valid() && txs != [] && TimesRise(txs) && NoOverflow(txs, s)
    ensures Get(Fold(txs[..|txs| - 1], s), code) <= Get(Fold(txs, s), code) <= Time(txs[|txs| - 1]) + MAX_PREPAID
  {
    hide Fold, StackAll, Worth, CreditsOf, InOrder, NoneWraps, TimesRise, NoOverflow;
    var front, tx := txs[..|txs| - 1], txs[|txs| - 1];
    FoldIsStacked(front, s, code);
    FoldIsStacked(txs, s, code);
    CreditsInOrder(txs, s, code);
    NextCredits(txs, s, code);
    var gs := CreditsOf(txs, s, code);
    if gs == [] {
      NothingStacked();
    } else {
      StackingNeverLowers(ZERO_TIME, gs);
    }
  }

  lemma NothingStacked()
    ensures StackAll(ZERO_TIME, []) == ZERO_TIME
  {
  }

  lemma NextCredits(txs: seq<Tx>, s: Schedule, code: string)
    requires s.Valid() && txs != []
    ensures var gs, before := CreditsOf(txs, s, code), CreditsOf(txs[..|txs| - 1], s, code);
            gs == before || (gs != [] && before == gs[..|gs| - 1])
    ensures CreditsOf(txs, s, code) != [] ==> CreditsOf(txs, s, code)[0] in CreditsOf(txs, s, code)
  {
    hide Worth;
  }

  /** A schedule that only appends entries above `after` gives every history up to there the same
      meaning; this is what lets a reprice or a snapshot keep its map. */
  lemma {:induction false} ExtendsKeepsFold(txs: seq<Tx>, s: Schedule, prev: Schedule, after: int)
    requires s.Valid() && prev.Valid() && Extends(s, prev, after)
    requires forall i :: 0 <= i < |txs| ==> txs[i].height <= after
    ensures Fold(txs, s) == Fold(txs, prev)
  {
    if txs != [] {
      ExtendsKeepsFold(txs[..|txs| - 1], s, prev, after);
      ExtendsKeepsEffective(s, prev, after, txs[|txs| - 1].height);
    }
  }

  // ---------------------------------------------------------------- trimmed ledgers

  /** m is `full` without some codes that had expired by `cutoff`; with no cutoff, m is `full`. */
  ghost predicate Agrees(m: Ledger, full: Ledger, cutoff: Option<int>) {
    forall code: string ::
      if code in m then code in full && m[code] == full[code]
      else code in full ==> cutoff.Some? && full[code] <= cutoff.value
  }

  predicate Premium(m: Ledger, code: string, now: int) {
    Get(m, code) > now
  }

  /** From the cutoff on, a trimmed ledger answers every premium question like the full one. */
  lemma SameAnswers(m: Ledger, full: Ledger, cutoff: Option<int>, code: string, now: int)
    requires Agrees(m, full, cutoff) && now >= ZERO_TIME
    requires cutoff.Some? ==> now >= cutoff.value
    ensures Premium(m, code, now) == Premium(full, code, now)
  {
  }

  /** The payment credits no dropped code, or does so at or after the expiry it was dropped for. */
  ghost predicate OnTime(m: Ledger, full: Ledger, tx: Tx, s: Schedule)
    requires s.Valid()
  {
    Worth(tx, s).Some? ==>
      var code := Worth(tx, s).value.0;
      code in full && code !in m ==> full[code] <= Time(tx)
  }

  /** Folding on keeps a trimmed ledger in agreement as long as payments are on time. */
  lemma GrantAgrees(m: Ledger, full: Ledger, cutoff: Option<int>, tx: Tx, s: Schedule)
    requires s.Valid() && Agrees(m, full, cutoff) && OnTime(m, full, tx, s)
    ensures Agrees(Grant(m, tx, s), Grant(full, tx, s), cutoff)
  {
    hide Worth;
    if Worth(tx, s).Some? {
      var (code, days) := Worth(tx, s).value;
      assert Stack(Get(m, code), days, Time(tx)) == Stack(Get(full, code), days, Time(tx));
    }
  }

  /** A dropped code's next payment is credited as if it had been kept exactly when it is dated at or
      after the expiry, or reaches the prepaid cap by itself. */
  lemma DroppedCodeIff(paidUntil: int, days: int, now: int)
    requires now >= ZERO_TIME && 1 <= days <= LONGEST_GRANT
    ensures Stack(ZERO_TIME, days, now) == Stack(paidUntil, days, now) <==> paidUntil <= now || days * DAY >= MAX_PREPAID
  {
    ShortGrantFits(days);
  }

  /** What Save writes: whole seconds, expired codes dropped. */
  function Saved(m: Ledger, now: int): map<string, int> {
    map code | code in m && m[code] > now :: m[code] / SECOND
  }

  /** What Load reads back. */
  function Loaded(saved: map<string, int>): Ledger {
    map code | code in saved :: saved[code] * SECOND
  }

  predicate WholeSeconds(m: Ledger) {
    forall code | code in m :: m[code] % SECOND == 0
  }

  /** Saving and loading drops exactly the codes expired at the save, nothing else. */
  lemma SaveLoadAgrees(m: Ledger, full: Ledger, cutoff: Option<int>, now: int, upTo: int)
    requires Agrees(m, full, cutoff) && WholeSeconds(m) && now <= upTo
    requires cutoff.Some? ==> cutoff.value <= upTo
    ensures Agrees(Loaded(Saved(m, now)), full, Some(upTo)) && WholeSeconds(Loaded(Saved(m, now)))
    ensures forall code :: code in Loaded(Saved(m, now)) <==> code in m && m[code] > now
  {
    var r := Loaded(Saved(m, now));
    forall code: string
      ensures if code in r then code in full && r[code] == full[code] else code in full ==> full[code] <= upTo
    {
    }
  }

  /** No payment of the history buys more days than an int64 duration holds. */
  predicate NoOverflow(txs: seq<Tx>, s: Schedule)
    requires s.Valid()
  {
    forall i :: 0 <= i < |txs| && Worth(txs[i], s).Some? ==> Worth(txs[i], s).value.1 <= LONGEST_GRANT
  }

  lemma GrantWhole(m: Ledger, tx: Tx, s: Schedule)
    requires s.Valid() && WholeSeconds(m)
    requires Worth(tx, s).Some? ==> Worth(tx, s).value.1 <= LONGEST_GRANT
    ensures WholeSeconds(Grant(m, tx, s))
  {
    if Worth(tx, s).Some? {
      var (code, days) := Worth(tx, s).value;
      assert days >= 1;
      hide Worth;
      ShortGrantFits(days);
      StackWhole(Get(m, code), days, tx.seconds);
    }
  }

  lemma StackWhole(current: int, days: int, seconds: int)
    requires current % SECOND == 0 && DaysNs(days) == days * DAY
    ensures Stack(current, days, seconds * SECOND) % SECOND == 0
  {
    var c := current / SECOND;
    assert current == c * SECOND;
    WholeMultiple(seconds);
    WholeMultiple(seconds + 720 * 86_400);
    WholeMultiple(c + days * 86_400);
    WholeMultiple(seconds + days * 86_400);
  }

  lemma WholeMultiple(n: int)
    ensures (n * SECOND) % SECOND == 0
  {
    DivModUnique(n * SECOND, SECOND, n, 0);
  }

  // ---------------------------------------------------------------- folding on from a ledger

  function FoldFrom(m: Ledger, txs: seq<Tx>, s: Schedule): Ledger
    requires s.Valid()
  {
    if txs == [] then m else Grant(FoldFrom(m, txs[..|txs| - 1], s), txs[|txs| - 1], s)
  }

  lemma {:induction false} FoldSplit(a: seq<Tx>, b: seq<Tx>, s: Schedule)
    requires s.Valid()
    ensures Fold(a + b, s) == FoldFrom(Fold(a, s), b, s)
  {
    if b == [] {
      assert a + b == a;
    } else {
      assert (a + b)[..|a + b| - 1] == a + b[..|b| - 1];
      FoldSplit(a, b[..|b| - 1], s);
    }
  }

  /** Each payment of txs, folded in turn, is on time for the trimmed ledger. */
  ghost predicate AllOnTime(m: Ledger, full: Ledger, txs: seq<Tx>, s: Schedule)
    requires s.Valid()
  {
    txs == [] ||
    (var front := txs[..|txs| - 1];
     AllOnTime(m, full, front, s) && OnTime(FoldFrom(m, front, s), FoldFrom(full, front, s), txs[|txs| - 1], s))
  }

  /** A restart that trimmed expired codes, then folding on time, keeps agreeing with never stopping. */
  lemma {:induction false} FoldFromAgrees(m: Ledger, full: Ledger, cutoff: Option<int>, txs: seq<Tx>, s: Schedule)
    requires s.Valid() && Agrees(m, full, cutoff)
    requires cutoff.None? || AllOnTime(m, full, txs, s)
    ensures Agrees(FoldFrom(m, txs, s), FoldFrom(full, txs, s), cutoff) && (cutoff.None? ==> AllOnTime(m, full, txs, s))
  {
    if txs != [] {
      FoldFromAgrees(m, full, cutoff, txs[..|txs| - 1], s);
      GrantAgrees(FoldFrom(m, txs[..|txs| - 1], s), FoldFrom(full, txs[..|txs| - 1], s), cutoff, txs[|txs| - 1], s);
    }
  }

  /** How many of the payments credit a code. */
  function Credited(txs: seq<Tx>, s: Schedule): nat
    requires s.Valid()
  {
    if txs == [] then 0 else Credited(txs[..|txs| - 1], s) + if Worth(txs[|txs| - 1], s).Some? then 1 else 0
  }

  /** As long as no duration wraps, every paid_until is in whole seconds, as block times are. */
  lemma {:induction false} FoldFromWhole(m: Ledger, txs: seq<Tx>, s: Schedule)
    requires s.Valid() && WholeSeconds(m) && NoOverflow(txs, s)
    ensures WholeSeconds(FoldFrom(m, txs, s))
  {
    if txs != [] {
      FoldFromWhole(m, txs[..|txs| - 1], s);
      GrantWhole(FoldFrom(m, txs[..|txs| - 1], s), txs[|txs| - 1], s);
    }
  }

  /** Folding from nothing is the fold. */
  lemma FoldFromNothing(txs: seq<Tx>, s: Schedule)
    requires s.Valid()
    ensures FoldFrom(map[], txs, s) == Fold(txs, s)
  {
    FoldSplit([], txs, s);
    assert [] + txs == txs;
  }

  lemma {:induction false} FoldFromSplit(m: Ledger, a: seq<Tx>, b: seq<Tx>, s: Schedule)
    requires s.Valid()
    ensures FoldFrom(m, a + b, s) == FoldFrom(FoldFrom(m, a, s), b, s)
  {
    if b == [] {
      assert a + b == a;
    } else {
      assert (a + b)[..|a + b| - 1] == a + b[..|b| - 1];
      FoldFromSplit(m, a, b[..|b| - 1], s);
    }
  }

  // ---------------------------------------------------------------- restarts

  /** One process's life: what it folded, and the time of the save its successor resumed from. */
  datatype Life = Life(txs: seq<Tx>, savedAt: int)

  /** Everything the past lives folded. */
  function Told(lives: seq<Life>): seq<Tx> {
    if lives == [] then [] else Told(lives[..|lives| - 1]) + lives[|lives| - 1].txs
  }

  /** The ledger a process starts with after these lives: each resumed from what the one before saved. */
  function Resumed(lives: seq<Life>, s: Schedule): Ledger
    requires s.Valid()
  {
    if lives == [] then map[]
    else
      var last := lives[|lives| - 1];
      Loaded(Saved(FoldFrom(Resumed(lives[..|lives| - 1], s), last.txs, s), last.savedAt))
  }

  /** The ledger of life k when it saved. */
  function AtSave(lives: seq<Life>, s: Schedule, k: nat): Ledger
    requires s.Valid() && k < |lives|
  {
    FoldFrom(Resumed(lives[..k], s), lives[k].txs, s)
  }

  /** Life k's save dropped the code as expired. */
  predicate DroppedBy(lives: seq<Life>, s: Schedule, k: nat, code: string)
    requires s.Valid() && k < |lives|
  {
    code in AtSave(lives, s, k) && AtSave(lives, s, k)[code] <= lives[k].savedAt
  }

  /** A payment credits no code an earlier save dropped, or is dated at or after the expiry it was
      dropped with. */
  predicate Prompt(lives: seq<Life>, s: Schedule, tx: Tx)
    requires s.Valid()
  {
    Worth(tx, s).Some? ==>
      forall k: nat :: k < |lives| && DroppedBy(lives, s, k, Worth(tx, s).value.0) ==>
        AtSave(lives, s, k)[Worth(tx, s).value.0] <= Time(tx)
  }

  /** Every payment folded after a save is prompt with regard to it. */
  predicate AllPrompt(lives: seq<Life>, since: seq<Tx>, s: Schedule)
    requires s.Valid()
    decreases |lives|
  {
    && (forall i :: 0 <= i < |since| ==> Prompt(lives, s, since[i]))
    && (lives == [] || AllPrompt(lives[..|lives| - 1], lives[|lives| - 1].txs, s))
  }

  function LastSave(lives: seq<Life>): Option<int> {
    if lives == [] then None
    else
      var before := LastSave(lives[..|lives| - 1]);
      Some(if before.Some? then Max(before.value, lives[|lives| - 1].savedAt) else lives[|lives| - 1].savedAt)
  }

  /** m is `full` without codes that the saves of these lives dropped, at the expiry `full` has them. */
  ghost predicate Trimmed(lives: seq<Life>, s: Schedule, m: Ledger, full: Ledger)
    requires s.Valid()
  {
    && Agrees(m, full, LastSave(lives))
    && forall code :: code in full && code !in m ==>
         exists k: nat :: k < |lives| && DroppedBy(lives, s, k, code) && AtSave(lives, s, k)[code] == full[code]
  }

  /** Prompt payments are on time however the ledgers have moved since the restart. */
  lemma {:induction false} PromptIsOnTime(lives: seq<Life>, s: Schedule, m: Ledger, full: Ledger, txs: seq<Tx>)
    requires s.Valid() && Trimmed(lives, s, m, full)
    requires forall i :: 0 <= i < |txs| ==> Prompt(lives, s, txs[i])
    ensures AllOnTime(m, full, txs, s) && Trimmed(lives, s, FoldFrom(m, txs, s), FoldFrom(full, txs, s))
  {
    hide Worth, AtSave, LastSave, DroppedBy;
    if txs != [] {
      var front, tx := txs[..|txs| - 1], txs[|txs| - 1];
      PromptIsOnTime(lives, s, m, full, front);
      GrantTrims(lives, s, FoldFrom(m, front, s), FoldFrom(full, front, s), tx);
    }
  }

  lemma GrantTrims(lives: seq<Life>, s: Schedule, m: Ledger, full: Ledger, tx: Tx)
    requires s.Valid() && Trimmed(lives, s, m, full) && Prompt(lives, s, tx)
    ensures OnTime(m, full, tx, s) && Trimmed(lives, s, Grant(m, tx, s), Grant(full, tx, s))
  {
    hide Worth, AtSave, LastSave, DroppedBy, Stack;
    GrantAgrees(m, full, LastSave(lives), tx, s);
  }

  /** A save drops exactly what its life's ledger shows expired. */
  lemma {:induction false} SaveTrims(lives: seq<Life>, s: Schedule, full: Ledger)
    requires s.Valid() && lives != []
    requires var n := |lives| - 1;
             Trimmed(lives[..n], s, AtSave(lives, s, n), full) && WholeSeconds(AtSave(lives, s, n))
    ensures Trimmed(lives, s, Resumed(lives, s), full) && WholeSeconds(Resumed(lives, s))
  {
    hide FoldFrom, WholeSeconds, Agrees, Saved, Loaded;
    var n := |lives| - 1;
    var m := AtSave(lives, s, n);
    assert Resumed(lives, s) == Loaded(Saved(m, lives[n].savedAt));
    hide Resumed, AtSave, DroppedBy;
    SaveLoadAgrees(m, full, LastSave(lives[..n]), lives[n].savedAt, LastSave(lives).value);
    forall code | code in full && code !in Resumed(lives, s)
      ensures exists k: nat :: k < |lives| && DroppedBy(lives, s, k, code) && AtSave(lives, s, k)[code] == full[code]
    {
      MissingWasDropped(lives, s, full, code);
    }
  }

  lemma {:induction false} MissingWasDropped(lives: seq<Life>, s: Schedule, full: Ledger, code: string)
    requires s.Valid() && lives != [] && code in full
    requires var n := |lives| - 1;
             && Trimmed(lives[..n], s, AtSave(lives, s, n), full)
             && !(code in AtSave(lives, s, n) && AtSave(lives, s, n)[code] > lives[n].savedAt)
    ensures exists k: nat :: k < |lives| && DroppedBy(lives, s, k, code) && AtSave(lives, s, k)[code] == full[code]
  {
    hide FoldFrom, Resumed, LastSave, Saved, Loaded;
    var n := |lives| - 1;
    var front, m := lives[..n], AtSave(lives, s, n);
    if code in m {
      assert DroppedBy(lives, s, n, code) && m[code] == full[code];
    } else {
      var k: nat :| k < n && DroppedBy(front, s, k, code) && AtSave(front, s, k)[code] == full[code];
      assert front[..k] == lives[..k] && front[k] == lives[k];
      assert AtSave(front, s, k) == AtSave(lives, s, k);
      assert DroppedBy(lives, s, k, code);
    }
  }

  /** However often a gateway restarted, its ledger is the full fold without expired codes. */
  lemma {:induction false} ResumedAgrees(lives: seq<Life>, since: seq<Tx>, s: Schedule)
    requires s.Valid() && AllPrompt(lives, since, s) && NoOverflow(Told(lives) + since, s)
    ensures Trimmed(lives, s, FoldFrom(Resumed(lives, s), since, s), Fold(Told(lives) + since, s))
    ensures WholeSeconds(FoldFrom(Resumed(lives, s), since, s))
    decreases |lives|
  {
    hide FoldFrom, Fold, Trimmed, Prompt, WholeSeconds, Worth;
    var told := Told(lives);
    NoneWithin(told, since, s);
    FoldSplit(told, since, s);
    if lives == [] {
      NothingTrimmed(s);
    } else {
      var n := |lives| - 1;
      ResumedAgrees(lives[..n], lives[n].txs, s);
      SaveTrims(lives, s, Fold(told, s));
    }
    PromptIsOnTime(lives, s, Resumed(lives, s), Fold(told, s), since);
    FoldFromWhole(Resumed(lives, s), since, s);
  }

  lemma NothingTrimmed(s: Schedule)
    requires s.Valid()
    ensures Trimmed([], s, map[], Fold([], s)) && WholeSeconds(map[])
  {
  }

  lemma NoneWithin(a: seq<Tx>, b: seq<Tx>, s: Schedule)
    requires s.Valid() && NoOverflow(a + b, s)
    ensures NoOverflow(a, s) && NoOverflow(b, s)
  {
    hide Worth;
    forall i | 0 <= i < |a| && Worth(a[i], s).Some? ensures Worth(a[i], s).value.1 <= LONGEST_GRANT {
      assert (a + b)[i] == a[i];
    }
    forall i | 0 <= i < |b| && Worth(b[i], s).Some? ensures Worth(b[i], s).value.1 <= LONGEST_GRANT {
      assert (a + b)[|a| + i] == b[i];
    }
  }

  /** The restart law: from the last save on, a gateway that restarted any number of times gives every
      code the premium answer of one that never stopped, if every payment folded after a save is dated
      at or after the expiry of the code it credits, should that save have dropped it. */
  lemma RestartAnswers(lives: seq<Life>, since: seq<Tx>, s: Schedule, code: string, now: int)
    requires s.Valid() && AllPrompt(lives, since, s) && NoOverflow(Told(lives) + since, s)
    requires now >= ZERO_TIME && forall k :: 0 <= k < |lives| ==> lives[k].savedAt <= now
    ensures Premium(FoldFrom(Resumed(lives, s), since, s), code, now) == Premium(Fold(Told(lives) + since, s), code, now)
  {
    hide FoldFrom, Fold, Resumed, AllPrompt, NoOverflow, WholeSeconds;
    ResumedAgrees(lives, since, s);
    SavedBefore(lives, now);
    SameAnswers(FoldFrom(Resumed(lives, s), since, s), Fold(Told(lives) + since, s), LastSave(lives), code, now);
  }

  lemma {:induction false} SavedBefore(lives: seq<Life>, now: int)
    requires forall k :: 0 <= k < |lives| ==> lives[k].savedAt <= now
    ensures LastSave(lives).Some? ==> LastSave(lives).value <= now
  {
    if lives != [] { SavedBefore(lives[..|lives| - 1], now); }
  }

  /** One restart, in closed form: p folded and saved at t0, q folded since. */
  lemma OneRestart(p: seq<Tx>, q: seq<Tx>, t0: int, s: Schedule, code: string, now: int)
    requires s.Valid() && NoOverflow(p + q, s) && now >= t0 && now >= ZERO_TIME
    requires forall i :: 0 <= i < |q| && Worth(q[i], s).Some? ==>
               var c := Worth(q[i], s).value.0;
               c in Fold(p, s) && Fold(p, s)[c] <= t0 ==> Fold(p, s)[c] <= Time(q[i])
    ensures Premium(FoldFrom(Loaded(Saved(Fold(p, s), t0)), q, s), code, now) == Premium(Fold(p + q, s), code, now)
  {
    hide Fold, FoldFrom, Worth, Saved, Loaded;
    var lives := [Life(p, t0)];
    assert lives[..0] == [];
    FoldFromNothing(p, s);
    assert Resumed([], s) == map[] && Told([]) == [];
    assert AtSave(lives, s, 0) == Fold(p, s) && Resumed(lives, s) == Loaded(Saved(Fold(p, s), t0));
    assert Told(lives) == [] + p == p;
    assert AllPrompt([], p, s);
    RestartAnswers(lives, q, s, code, now);
  }
}
