/** The entitlement engine (gateway/internal/entitle/entitle.go) and its snapshot
    (gateway/internal/entitle/snapshot.go): a cursor, an overlap and a dedup map over a lagging history
    source, against the plain fold of the payment history. */
module Entitlement {
  import opened Common
  import opened PriceSchedule
  import opened GrantRules
  import opened PaymentFold

  /** How far below the cursor every scan re-reads. */
  const OVERLAP: int := 40
  const SNAPSHOT_VERSION: int := 1

  // ---------------------------------------------------------------- the history source

  /** The address's whole payment history, past and future, in chain order. */
  ghost predicate ChainOrder(history: seq<Tx>) {
    && (forall i :: 0 <= i < |history| ==> history[i].height > 0 && history[i].txid != "")
    && (forall i, j :: 0 <= i < j < |history| ==>
          history[i].height <= history[j].height && history[i].txid != history[j].txid)
  }

  /** What a read above `from` may return when the reported height is `height`: confirmed transactions
      of the history (and unconfirmed noise), missing none that is OVERLAP or more below `height`. */
  ghost predicate ReadShows(history: seq<Tx>, from: int, height: int, txs: seq<Tx>) {
    && (forall t :: t in txs ==> t.height <= 0 || (t in history && t.height > from))
    && (forall t :: t in history && from < t.height <= height - OVERLAP ==> t in txs)
  }

  /** The transactions of heights (from, upTo], in order. */
  function Slice(history: seq<Tx>, from: int, upTo: int): seq<Tx> {
    if history == [] then []
    else
      var t := history[|history| - 1];
      Slice(history[..|history| - 1], from, upTo) + (if from < t.height <= upTo then [t] else [])
  }

  // ---------------------------------------------------------------- what a scan folds

  /** `done` extended by the transactions of a batch not folded yet, in batch order. */
  function Extended(done: seq<Tx>, txs: seq<Tx>, upTo: int): seq<Tx> {
    if txs == [] then done
    else
      var before := Extended(done, txs[..|txs| - 1], upTo);
      var t := txs[|txs| - 1];
      if t.height <= 0 || t.height > upTo || t in before then before else before + [t]
  }

  lemma {:induction false} ExtendedMembers(done: seq<Tx>, txs: seq<Tx>, upTo: int)
    ensures forall t :: t in Extended(done, txs, upTo) <==> t in done || (t in txs && 0 < t.height <= upTo)
    ensures |done| <= |Extended(done, txs, upTo)| && Extended(done, txs, upTo)[..|done|] == done
  {
    if txs != [] {
      ExtendedMembers(done, txs[..|txs| - 1], upTo);
      assert txs == txs[..|txs| - 1] + [txs[|txs| - 1]];
    }
  }

  ghost predicate NoRepeats(txs: seq<Tx>) {
    forall i, j :: 0 <= i < j < |txs| ==> txs[i] != txs[j]
  }

  lemma {:induction false} ExtendedNoRepeats(done: seq<Tx>, txs: seq<Tx>, upTo: int)
    requires NoRepeats(done)
    ensures NoRepeats(Extended(done, txs, upTo))
  {
    if txs != [] { ExtendedNoRepeats(done, txs[..|txs| - 1], upTo); }
  }

  /** `seen` records exactly the folded transactions above `bound`. */
  ghost predicate Remembers(seen: map<string, int>, folded: seq<Tx>, bound: int) {
    && (forall t :: t in folded && t.height > bound ==> t.txid in seen && seen[t.txid] == t.height)
    && (forall id :: id in seen ==> exists t :: t in folded && t.txid == id && t.height > bound)
  }

  /** The height a scan reads above, and above which `seen` is complete. */
  function ReadFloor(last: int, floor: int): int {
    Max(Max(last - OVERLAP, floor), 0)
  }

  /** The cursor invariant: every folded transaction is history at or below the cursor, folded once;
      nothing OVERLAP or more below the cursor is missing, except at or below `floor`; `seen` covers the
      overlap above the floor. The floor is 0 but for a file from before the overlap. */
  ghost predicate Cursor(history: seq<Tx>, folded: seq<Tx>, last: int, floor: int, seen: map<string, int>) {
    && 0 <= floor <= last && NoRepeats(folded)
    && (forall t :: t in folded ==> t in history && t.height <= last)
    && (forall t :: t in history && floor < t.height <= last - OVERLAP ==> t in folded)
    && Remembers(seen, folded, ReadFloor(last, floor))
  }

  /** In a history, a txid names one transaction. */
  lemma OneTx(history: seq<Tx>, t: Tx, u: Tx)
    requires ChainOrder(history) && t in history && u in history && t.txid == u.txid
    ensures t == u
  {
    var i :| 0 <= i < |history| && history[i] == t;
    var j :| 0 <= j < |history| && history[j] == u;
  }

  /** The batch so far has added `added` to `start` and moved the ledger and the count accordingly. */
  ghost predicate Done(start: seq<Tx>, batch: seq<Tx>, upTo: int, folded: seq<Tx>, added: seq<Tx>,
                       m0: Ledger, m: Ledger, granted: int, s: Schedule)
    requires s.Valid()
  {
    && folded == start + added == Extended(start, batch, upTo)
    && m == FoldFrom(m0, added, s) && granted == Credited(added, s)
  }

  lemma ExtendedNext(done: seq<Tx>, txs: seq<Tx>, i: nat, upTo: int)
    requires i < |txs|
    ensures var before := Extended(done, txs[..i], upTo);
            Extended(done, txs[..i + 1], upTo)
            == if txs[i].height <= 0 || txs[i].height > upTo || txs[i] in before then before else before + [txs[i]]
  {
    assert txs[..i + 1][..i] == txs[..i];
  }

  lemma DoneNothing(start: seq<Tx>, upTo: int, m0: Ledger, s: Schedule)
    requires s.Valid()
    ensures Done(start, [], upTo, start, [], m0, m0, 0, s)
  {
  }

  lemma DoneNext(start: seq<Tx>, txs: seq<Tx>, i: nat, upTo: int, folded: seq<Tx>, added: seq<Tx>,
                 m0: Ledger, m: Ledger, granted: int, s: Schedule)
    requires s.Valid() && i < |txs| && Done(start, txs[..i], upTo, folded, added, m0, m, granted, s)
    ensures var tx := txs[i];
            if tx.height <= 0 || tx.height > upTo || tx in folded
            then Done(start, txs[..i + 1], upTo, folded, added, m0, m, granted, s)
            else Done(start, txs[..i + 1], upTo, folded + [tx], added + [tx], m0, Grant(m, tx, s),
                      granted + (if Worth(tx, s).Some? then 1 else 0), s)
  {
    hide Grant, Worth;
    var tx := txs[i];
    assert txs[..i + 1][..i] == txs[..i];
    assert (added + [tx])[..|added + [tx]| - 1] == added;
    assert start + (added + [tx]) == (start + added) + [tx];
  }

  lemma DoneMeans(start: seq<Tx>, txs: seq<Tx>, upTo: int, folded: seq<Tx>, added: seq<Tx>,
                  m0: Ledger, m: Ledger, granted: int, s: Schedule)
    requires s.Valid() && Done(start, txs, upTo, folded, added, m0, m, granted, s)
    ensures folded == start + added == Extended(start, txs, upTo)
    ensures m == FoldFrom(m0, added, s) && granted == Credited(added, s)
  {
  }

  lemma HasTxid(history: seq<Tx>, t: Tx)
    requires ChainOrder(history) && t in history
    ensures t.txid != "" && t.height > 0
  {
    var i :| 0 <= i < |history| && history[i] == t;
  }

  ghost predicate Drawn(history: seq<Tx>, folded: seq<Tx>) {
    forall u :: u in folded ==> u in history
  }

  lemma CursorIs(history: seq<Tx>, folded: seq<Tx>, last: int, floor: int, seen: map<string, int>)
    requires Cursor(history, folded, last, floor, seen)
    ensures Remembers(seen, folded, ReadFloor(last, floor)) && Drawn(history, folded)
  {
  }

  lemma Shown(history: seq<Tx>, from: int, height: int, txs: seq<Tx>, i: nat)
    requires ReadShows(history, from, height, txs) && i < |txs|
    ensures txs[i].height <= 0 || (txs[i] in history && txs[i].height > from)
  {
  }

  /** Within a scan, being in `seen` is being folded already. */
  lemma SeenIsFolded(history: seq<Tx>, folded: seq<Tx>, bound: int, seen: map<string, int>, t: Tx)
    requires ChainOrder(history) && Remembers(seen, folded, bound)
    requires forall u :: u in folded ==> u in history
    requires t in history && t.height > bound
    ensures t.txid in seen <==> t in folded
  {
    if t.txid in seen {
      var u :| u in folded && u.txid == t.txid && u.height > bound;
      OneTx(history, t, u);
    }
  }

  lemma RememberNext(folded: seq<Tx>, bound: int, seen: map<string, int>, t: Tx, history: seq<Tx>)
    requires ChainOrder(history) && Remembers(seen, folded, bound)
    requires t in history && t.height > bound && forall u :: u in folded ==> u in history
    requires t !in folded
    ensures Remembers(seen[t.txid := t.height], folded + [t], bound)
  {
    var seen', folded' := seen[t.txid := t.height], folded + [t];
    forall u | u in folded' && u.height > bound ensures u.txid in seen' && seen'[u.txid] == u.height {
      if u in folded && u.txid == t.txid { OneTx(history, u, t); }
    }
    forall id | id in seen' ensures exists u :: u in folded' && u.txid == id && u.height > bound {
      if id == t.txid {
        assert t in folded';
      } else {
        var u :| u in folded && u.txid == id && u.height > bound;
        assert u in folded';
      }
    }
  }

  /** seen without the entries at or below `bound`. */
  function Pruned(seen: map<string, int>, bound: int): map<string, int> {
    map id | id in seen && seen[id] > bound :: seen[id]
  }

  lemma PrunedRemembers(seen: map<string, int>, folded: seq<Tx>, bound: int, higher: int)
    requires Remembers(seen, folded, bound)
    ensures Remembers(Pruned(seen, higher), folded, Max(bound, higher))
  {
    forall id | id in Pruned(seen, higher)
      ensures exists t :: t in folded && t.txid == id && t.height > Max(bound, higher)
    {
      var t :| t in folded && t.txid == id && t.height > bound;
      assert seen[id] == t.height;
    }
  }

  /** A scan moves the cursor invariant up to the reported height, however late the source indexed
      the overlap. */
  lemma ScanKeepsCursor(history: seq<Tx>, folded: seq<Tx>, last: int, floor: int, seen: map<string, int>,
                        height: int, txs: seq<Tx>, seen': map<string, int>)
    requires ChainOrder(history) && Cursor(history, folded, last, floor, seen) && last <= height
    requires ReadShows(history, ReadFloor(last, floor), height, txs)
    requires Remembers(seen', Extended(folded, txs, height), ReadFloor(height, floor))
    ensures Cursor(history, Extended(folded, txs, height), height, floor, seen')
  {
    hide Remembers, Extended;
    ExtendedMembers(folded, txs, height);
    ExtendedNoRepeats(folded, txs, height);
    forall t | t in history && floor < t.height <= height - OVERLAP ensures t in Extended(folded, txs, height) {
      var i :| 0 <= i < |history| && history[i] == t;
      assert t.height > 0;
    }
  }

  // ---------------------------------------------------------------- gapless reads fold a prefix

  lemma {:induction false} SliceMembers(history: seq<Tx>, from: int, upTo: int)
    ensures forall t :: t in Slice(history, from, upTo) <==> t in history && from < t.height <= upTo
  {
    if history != [] {
      SliceMembers(history[..|history| - 1], from, upTo);
      assert history == history[..|history| - 1] + [history[|history| - 1]];
    }
  }

  lemma {:induction false} SliceEmpty(history: seq<Tx>, from: int, upTo: int)
    requires forall i :: 0 <= i < |history| ==> history[i].height <= from
    ensures Slice(history, from, upTo) == []
  {
    if history != [] { SliceEmpty(history[..|history| - 1], from, upTo); }
  }

  lemma {:induction false} SliceAll(history: seq<Tx>, lo: int, mid: int, hi: int)
    requires ChainOrder(history) && lo <= mid <= hi
    ensures Slice(history, lo, hi) == Slice(history, lo, mid) + Slice(history, mid, hi)
  {
    if history == [] {
      assert Slice(history, lo, mid) == [] && Slice(history, mid, hi) == [];
    } else {
      var front, t := history[..|history| - 1], history[|history| - 1];
      assert ChainOrder(front) && forall i :: 0 <= i < |front| ==> front[i].height <= t.height;
      hide ChainOrder, Slice;
      SliceAll(front, lo, mid, hi);
      SliceSnoc(history, lo, hi);
      SliceSnoc(history, lo, mid);
      SliceSnoc(history, mid, hi);
      if t.height <= mid {
        SliceEmpty(front, mid, hi);
      }
    }
  }

  lemma SliceSnoc(history: seq<Tx>, from: int, upTo: int)
    requires history != []
    ensures var t := history[|history| - 1];
            Slice(history, from, upTo) == Slice(history[..|history| - 1], from, upTo) + (if from < t.height <= upTo then [t] else [])
  {
  }

  lemma {:induction false} ExtendedSkips(done: seq<Tx>, txs: seq<Tx>, upTo: int)
    requires forall t :: t in txs ==> t in done || t.height > upTo
    ensures Extended(done, txs, upTo) == done
  {
    if txs != [] {
      ExtendedSkips(done, txs[..|txs| - 1], upTo);
      assert txs[|txs| - 1] in txs;
    }
  }

  lemma {:induction false} ExtendedConcat(done: seq<Tx>, a: seq<Tx>, b: seq<Tx>, upTo: int)
    ensures Extended(done, a + b, upTo) == Extended(Extended(done, a, upTo), b, upTo)
  {
    if b == [] {
      assert a + b == a;
    } else {
      assert (a + b)[..|a + b| - 1] == a + b[..|b| - 1];
      ExtendedConcat(done, a, b[..|b| - 1], upTo);
    }
  }

  lemma {:induction false} ExtendedAppends(done: seq<Tx>, txs: seq<Tx>, upTo: int)
    requires NoRepeats(txs) && forall t :: t in txs ==> t !in done && 0 < t.height <= upTo
    ensures Extended(done, txs, upTo) == done + txs
  {
    if txs == [] {
      assert done + txs == done;
    } else {
      var front, t := txs[..|txs| - 1], txs[|txs| - 1];
      assert forall u :: u in front ==> u in txs;
      ExtendedAppends(done, front, upTo);
      assert t in txs && t !in front;
      assert done + txs == (done + front) + [t];
    }
  }

  lemma {:induction false} SliceNoRepeats(history: seq<Tx>, from: int, upTo: int)
    requires ChainOrder(history)
    ensures NoRepeats(Slice(history, from, upTo))
  {
    if history != [] {
      var front, t := history[..|history| - 1], history[|history| - 1];
      SliceNoRepeats(front, from, upTo);
      SliceMembers(front, from, upTo);
      forall i | 0 <= i < |Slice(front, from, upTo)| ensures Slice(front, from, upTo)[i] != t {
        assert Slice(front, from, upTo)[i] in front;
        var j :| 0 <= j < |front| && front[j] == Slice(front, from, upTo)[i];
        assert history[j].txid != history[|history| - 1].txid;
      }
    }
  }

  /** When a read shows everything up to `visible`, the scan leaves the history up to there folded,
      in chain order. */
  lemma GaplessScan(history: seq<Tx>, was: int, from: int, visible: int, height: int)
    requires ChainOrder(history) && 0 <= from <= was <= height
    ensures Extended(Slice(history, 0, was), Slice(history, from, visible), height)
         == Slice(history, 0, Max(was, Min(visible, height)))
  {
    var done := Slice(history, 0, was);
    var top := Min(visible, height);
    SliceMembers(history, 0, was);
    if visible <= was {
      SliceMembers(history, from, visible);
      ExtendedSkips(done, Slice(history, from, visible), height);
    } else {
      SliceAll(history, from, was, visible);
      ExtendedConcat(done, Slice(history, from, was), Slice(history, was, visible), height);
      SliceMembers(history, from, was);
      ExtendedSkips(done, Slice(history, from, was), height);
      SliceAll(history, was, top, visible);
      ExtendedConcat(done, Slice(history, was, top), Slice(history, top, visible), height);
      SliceMembers(history, was, top);
      SliceNoRepeats(history, was, top);
      ExtendedAppends(done, Slice(history, was, top), height);
      SliceMembers(history, top, visible);
      ExtendedSkips(done + Slice(history, was, top), Slice(history, top, visible), height);
      SliceAll(history, 0, was, top);
    }
  }

  /** Exactly the history up to height v, at most OVERLAP behind the cursor, is folded in chain order. */
  ghost predicate FoldedTo(history: seq<Tx>, folded: seq<Tx>, last: int, v: int) {
    folded == Slice(history, 0, v) && 0 <= v && last - OVERLAP <= v <= last
  }

  /** A read above `from` shows all of the history up to height v, at most OVERLAP behind `height`. */
  ghost predicate ShowsTo(history: seq<Tx>, from: int, height: int, v: int, txs: seq<Tx>) {
    v >= height - OVERLAP && txs == Slice(history, from, v)
  }

  // ---------------------------------------------------------------- rebuilding

  datatype Rebuilt = Rebuilt(ledger: Ledger, seen: map<string, int>, height: int)

  /** ids are the txids of txs. */
  ghost predicate Names(ids: set<string>, txs: seq<Tx>) {
    && (forall t :: t in txs ==> t.txid in ids)
    && (forall id :: id in ids ==> exists t :: t in txs && t.txid == id)
  }

  lemma NothingYet(history: seq<Tx>, bound: int, s: Schedule)
    requires s.Valid()
    ensures Names({}, []) && Remembers(map[], [], bound) && Drawn(history, []) && Fold([], s) == map[]
    ensures forall height :: Extended([], [], height) == []
  {
  }

  lemma NamedIsFolded(history: seq<Tx>, all: seq<Tx>, ids: set<string>, t: Tx)
    requires ChainOrder(history) && Names(ids, all) && Drawn(history, all) && t in history
    ensures t.txid != "" && (t.txid in ids <==> t in all)
  {
    HasTxid(history, t);
    if t.txid in ids {
      var u :| u in all && u.txid == t.txid;
      OneTx(history, t, u);
    }
  }

  lemma RecordNext(history: seq<Tx>, all: seq<Tx>, ids: set<string>, recent: map<string, int>, bound: int, t: Tx)
    requires ChainOrder(history) && Names(ids, all) && Remembers(recent, all, bound) && Drawn(history, all)
    requires t in history && t !in all
    ensures Names(ids + {t.txid}, all + [t]) && Drawn(history, all + [t])
    ensures Remembers(if t.height > bound then recent[t.txid := t.height] else recent, all + [t], bound)
  {
    NamesNext(all, ids, t);
    if t.height > bound {
      RememberNext(all, bound, recent, t, history);
    } else {
      RememberLow(all, bound, recent, t);
    }
  }

  lemma NamesNext(all: seq<Tx>, ids: set<string>, t: Tx)
    requires Names(ids, all)
    ensures Names(ids + {t.txid}, all + [t])
  {
    forall id | id in ids + {t.txid} ensures exists u :: u in all + [t] && u.txid == id {
      if id == t.txid {
        assert t in all + [t];
      } else {
        var u :| u in all && u.txid == id;
        assert u in all + [t];
      }
    }
  }

  lemma RememberLow(all: seq<Tx>, bound: int, recent: map<string, int>, t: Tx)
    requires Remembers(recent, all, bound) && t.height <= bound
    ensures Remembers(recent, all + [t], bound)
  {
    forall id | id in recent ensures exists u :: u in all + [t] && u.txid == id && u.height > bound {
      var u :| u in all && u.txid == id && u.height > bound;
      assert u in all + [t];
    }
  }

  /** What a full re-read folds. */
  ghost function Reread(reported: Option<int>, read: Option<seq<Tx>>): seq<Tx> {
    if reported.Some? && read.Some? then Extended([], read.value, reported.value) else []
  }

  /** The rebuild's guards: the source answered, is not behind the cursor, knows every transaction
      folded near it, and did not come back empty over a non-empty ledger. */
  ghost predicate Trusted(reported: Option<int>, read: Option<seq<Tx>>, last: int, seen: map<string, int>, m: Ledger) {
    && reported.Some? && reported.value > 0 && reported.value >= last && read.Some?
    && (forall id :: id in seen ==> exists t :: t in Reread(reported, read) && t.txid == id)
    && !(m != map[] && Reread(reported, read) == [])
  }

  lemma NamesKnown(ids: set<string>, all: seq<Tx>, seen: map<string, int>)
    requires Names(ids, all)
    ensures seen.Keys <= ids <==> forall id :: id in seen ==> exists t :: t in all && t.txid == id
  {
  }

  /** A trusted re-read satisfies the cursor invariant afresh and misses nothing folded before, except
      what a floor hides from `seen`. */
  lemma RebuiltCursor(history: seq<Tx>, txs: seq<Tx>, height: int, recent: map<string, int>,
                      folded: seq<Tx>, last: int, floor: int, seen: map<string, int>, ids: set<string>)
    requires ChainOrder(history) && ReadShows(history, 0, height, txs) && height > 0
    requires Remembers(recent, Extended([], txs, height), ReadFloor(height, 0)) && Names(ids, Extended([], txs, height))
    requires Cursor(history, folded, last, floor, seen) && last <= height && seen.Keys <= ids
    ensures Cursor(history, Extended([], txs, height), height, 0, recent)
    ensures forall t :: t in folded && (t.height > floor || t.height <= last - OVERLAP) ==> t in Extended([], txs, height)
    ensures floor == 0 ==> forall t :: t in folded ==> t in Extended([], txs, height)
  {
    var all := Extended([], txs, height);
    ExtendedMembers([], txs, height);
    ExtendedNoRepeats([], txs, height);
    forall t | t in history && t.height <= height - OVERLAP ensures t in all {
      HasTxid(history, t);
    }
    forall t | t in folded && (t.height > floor || t.height <= last - OVERLAP) ensures t in all {
      HasTxid(history, t);
      if t.height > last - OVERLAP {
        assert t.txid in seen;
        var u :| u in all && u.txid == t.txid;
        OneTx(history, t, u);
      }
    }
    forall t | t in folded ensures t.height > 0 { HasTxid(history, t); }
  }

  // ---------------------------------------------------------------- repricing

  datatype Decision = Keep | Swap | Replace | Retry

  /** What applyPending does with a pending schedule. */
  ghost function Verdict(pending: Option<Schedule>, cur: Schedule, last: int, trusted: bool): Decision {
    if pending.None? || pending.value == cur || !HasPrefix(pending.value, cur) then Keep
    else if Extends(pending.value, cur, last) then Swap
    else if trusted then Replace
    else Retry
  }

  // ---------------------------------------------------------------- snapshots

  /** The persisted state. schedule is None when the stored price does not parse; seen is None in
      files from before the overlap existed. */
  datatype Snapshot = Snapshot(
    version: int,
    address: string,
    schedule: Option<Schedule>,
    lastBlock: int,
    paidUntil: map<string, int>,
    seen: Option<map<string, int>>,
    seenFrom: int)

  function FileSeen(s: Snapshot): map<string, int> {
    if s.seen.Some? then s.seen.value else map[]
  }

  /** A file without `seen` makes its cursor the floor. */
  function FileFloor(s: Snapshot): int {
    if s.seen.Some? then s.seenFrom else s.lastBlock
  }

  /** Written over this history at the end of the last of these lives. */
  ghost predicate Genuine(history: seq<Tx>, s: Snapshot, lives: seq<Life>) {
    && s.schedule.Some? && s.schedule.value.Valid()
    && Cursor(history, Told(lives), s.lastBlock, FileFloor(s), FileSeen(s))
    && Loaded(s.paidUntil) == Resumed(lives, s.schedule.value)
  }

  predicate Accepts(s: Snapshot, address: string, sched: Schedule) {
    && s.version == SNAPSHOT_VERSION && s.address == address && s.lastBlock >= 0
    && s.schedule.Some? && Extends(sched, s.schedule.value, s.lastBlock)
  }

  // ---------------------------------------------------------------- the state and its steps

  /** What an engine holds, with what it and its predecessors folded. */
  datatype Mem = Mem(
    sched: Schedule, pending: Option<Schedule>, paidUntil: Ledger, lastBlock: int, floor: int, seen: map<string, int>,
    lives: seq<Life>, since: seq<Tx>)

  function Folded(m: Mem): seq<Tx> {
    Told(m.lives) + m.since
  }

  /** The engine's invariant: the cursor invariant over everything folded, and a ledger that is the
      fold of what this process folded, over the one it resumed from. */
  ghost predicate Good(history: seq<Tx>, m: Mem) {
    && ChainOrder(history) && m.sched.Valid() && (m.pending.Some? ==> m.pending.value.Valid())
    && Cursor(history, Folded(m), m.lastBlock, m.floor, m.seen)
    && m.paidUntil == FoldFrom(Resumed(m.lives, m.sched), m.since, m.sched)
  }

  function Fresh(sched: Schedule): Mem {
    Mem(sched, None, map[], 0, 0, map[], [], [])
  }

  predicate Goes(last: int, reported: Option<int>, read: Option<seq<Tx>>, force: bool) {
    reported.Some? && reported.value > 0 && read.Some? && (reported.value > last || (reported.value == last && force))
  }

  /** One poll: the new transactions of the read folded in order, the cursor at the reported height,
      the dedup map that of the overlap; or nothing. */
  ghost predicate Scanned(m: Mem, reported: Option<int>, read: Option<seq<Tx>>, force: bool, m': Mem)
    requires m.sched.Valid()
  {
    if Goes(m.lastBlock, reported, read, force) then
      && m.since <= m'.since
      && m' == m.(lastBlock := reported.value, since := m'.since, seen := m'.seen,
                  paidUntil := FoldFrom(m.paidUntil, m'.since[|m.since|..], m.sched))
      && Folded(m') == Extended(Folded(m), read.value, reported.value)
      && Remembers(m'.seen, Folded(m'), ReadFloor(reported.value, m.floor))
    else m' == m
  }

  /** A pending schedule dealt with; `newer` is one that arrives while a rebuild runs. */
  ghost predicate Installed(m: Mem, reported: Option<int>, read: Option<seq<Tx>>, newer: Option<Schedule>, m': Mem)
    requires m.pending.Some? ==> m.pending.value.Valid()
  {
    match Verdict(m.pending, m.sched, m.lastBlock, Trusted(reported, read, m.lastBlock, m.seen, m.paidUntil))
    case Keep => m' == m.(pending := None)
    case Swap => m' == m.(sched := m.pending.value, pending := None)
    case Retry => m' == m.(pending := if newer.Some? then newer else m.pending)
    case Replace =>
      && Remembers(m'.seen, Reread(reported, read), ReadFloor(reported.value, 0))
      && m' == Mem(m.pending.value, newer, Fold(Reread(reported, read), m.pending.value), reported.value, 0, m'.seen,
                   [], Reread(reported, read))
  }

  /** A process started on a snapshot file, or on none. */
  ghost predicate Booted(address: string, sched: Schedule, file: Option<Snapshot>, lives: seq<Life>, m': Mem) {
    if file.Some? && Accepts(file.value, address, sched)
    then m' == Mem(sched, None, Loaded(file.value.paidUntil), file.value.lastBlock, FileFloor(file.value), FileSeen(file.value),
                   lives, [])
    else m' == Fresh(sched)
  }

  lemma {:induction false} NoHeights(history: seq<Tx>, v: int)
    ensures Slice(history, v, v) == []
  {
    if history != [] { NoHeights(history[..|history| - 1], v); }
  }

  lemma FreshGood(history: seq<Tx>, sched: Schedule)
    requires ChainOrder(history) && sched.Valid()
    ensures Good(history, Fresh(sched)) && FoldedTo(history, [], 0, 0)
  {
    NoHeights(history, 0);
    forall t | t in history ensures t.height > 0 {
      var i :| 0 <= i < |history| && history[i] == t;
    }
  }

  /** A schedule that only appends above the cursor leaves a resumed ledger as it is. */
  lemma {:induction false} ExtendsKeepsFoldFrom(m: Ledger, txs: seq<Tx>, s: Schedule, prev: Schedule, after: int)
    requires s.Valid() && prev.Valid() && Extends(s, prev, after)
    requires forall i :: 0 <= i < |txs| ==> txs[i].height <= after
    ensures FoldFrom(m, txs, s) == FoldFrom(m, txs, prev)
  {
    if txs != [] {
      ExtendsKeepsFoldFrom(m, txs[..|txs| - 1], s, prev, after);
      ExtendsKeepsEffective(s, prev, after, txs[|txs| - 1].height);
    }
  }

  lemma {:induction false} ExtendsKeepsResumed(lives: seq<Life>, s: Schedule, prev: Schedule, after: int)
    requires s.Valid() && prev.Valid() && Extends(s, prev, after)
    requires forall t :: t in Told(lives) ==> t.height <= after
    ensures Resumed(lives, s) == Resumed(lives, prev)
  {
    hide Saved, Loaded, FoldFrom, Extends;
    if lives != [] {
      var n := |lives| - 1;
      forall t | t in Told(lives[..n]) || t in lives[n].txs ensures t.height <= after { assert t in Told(lives); }
      ExtendsKeepsResumed(lives[..n], s, prev, after);
      forall i | 0 <= i < |lives[n].txs| ensures lives[n].txs[i].height <= after { assert lives[n].txs[i] in lives[n].txs; }
      ExtendsKeepsFoldFrom(Resumed(lives[..n], s), lives[n].txs, s, prev, after);
    }
  }

  lemma ExtendsKeepsGood(history: seq<Tx>, m: Mem, s: Schedule, prev: Schedule)
    requires s.Valid() && prev.Valid() && Extends(s, prev, m.lastBlock)
    requires Cursor(history, Folded(m), m.lastBlock, m.floor, m.seen)
    ensures Resumed(m.lives, s) == Resumed(m.lives, prev)
    ensures FoldFrom(Resumed(m.lives, s), m.since, s) == FoldFrom(Resumed(m.lives, prev), m.since, prev)
  {
    hide FoldFrom, Resumed, Extends, Remembers;
    forall t | t in Told(m.lives) ensures t.height <= m.lastBlock { assert t in Folded(m); }
    forall i | 0 <= i < |m.since| ensures m.since[i].height <= m.lastBlock {
      assert m.since[i] in m.since && m.since[i] in Folded(m);
    }
    ExtendsKeepsResumed(m.lives, s, prev, m.lastBlock);
    ExtendsKeepsFoldFrom(Resumed(m.lives, s), m.since, s, prev, m.lastBlock);
  }

  /** What a pending schedule comes to. One that only appends takes effect: at once above the cursor, else as
      soon as a re-read can be trusted, and until then it waits, unless a newer one has come. One that edits
      the running schedule is dropped, and the ledger stands. A ledger with codes in it is never replaced by
      the fold of no transaction. */
  lemma PendingComesTo(m: Mem, reported: Option<int>, read: Option<seq<Tx>>, newer: Option<Schedule>, m': Mem)
    requires (m.pending.Some? ==> m.pending.value.Valid()) && Installed(m, reported, read, newer, m')
    ensures m.pending.None? || !HasPrefix(m.pending.value, m.sched) ==> m' == m.(pending := None)
    ensures m.pending.Some? && HasPrefix(m.pending.value, m.sched) && Extends(m.pending.value, m.sched, m.lastBlock) ==>
              m' == m.(sched := m.pending.value, pending := None)
    ensures m.pending.Some? && HasPrefix(m.pending.value, m.sched) && !Extends(m.pending.value, m.sched, m.lastBlock) ==>
              && (Trusted(reported, read, m.lastBlock, m.seen, m.paidUntil) ==> m'.sched == m.pending.value && m'.lives == [] && m'.pending == newer)
              && (!Trusted(reported, read, m.lastBlock, m.seen, m.paidUntil) ==>
                    m' == m.(pending := if newer.Some? then newer else m.pending))
    ensures m.paidUntil != map[] ==> m'.paidUntil == m.paidUntil || m'.since != []
    ensures m'.lastBlock >= m.lastBlock
  {
    hide Fold, Remembers, Reread;
    if m.pending.Some? && m.pending.value == m.sched { ExtendsItself(m.sched, m.lastBlock); }
  }

  lemma ExtendsItself(s: Schedule, after: int)
    ensures Extends(s, s, after) && HasPrefix(s, s)
  {
  }

  lemma SchedulesAreValid(history: seq<Tx>, m: Mem)
    requires Good(history, m)
    ensures m.sched.Valid() && (m.pending.Some? ==> m.pending.value.Valid())
  {
  }

  lemma Kept(history: seq<Tx>, m: Mem, reported: Option<int>, read: Option<seq<Tx>>, newer: Option<Schedule>)
    requires Good(history, m)
    ensures Good(history, m.(pending := None))
    ensures m.pending.None? || m.pending.value == m.sched || !HasPrefix(m.pending.value, m.sched)
            ==> Installed(m, reported, read, newer, m.(pending := None))
  {
  }

  lemma Swapped(history: seq<Tx>, m: Mem, reported: Option<int>, read: Option<seq<Tx>>, newer: Option<Schedule>)
    requires Good(history, m) && m.pending.Some? && m.pending.value != m.sched
    requires HasPrefix(m.pending.value, m.sched) && Extends(m.pending.value, m.sched, m.lastBlock)
    ensures Good(history, m.(sched := m.pending.value, pending := None))
    ensures Installed(m, reported, read, newer, m.(sched := m.pending.value, pending := None))
  {
    ExtendsKeepsGood(history, m, m.pending.value, m.sched);
  }

  lemma Retried(history: seq<Tx>, m: Mem, reported: Option<int>, read: Option<seq<Tx>>, newer: Option<Schedule>)
    requires Good(history, m) && m.pending.Some? && m.pending.value != m.sched
    requires HasPrefix(m.pending.value, m.sched) && !Extends(m.pending.value, m.sched, m.lastBlock)
    requires !Trusted(reported, read, m.lastBlock, m.seen, m.paidUntil) && (newer.Some? ==> newer.value.Valid())
    ensures var m' := m.(pending := if newer.Some? then newer else m.pending);
            Good(history, m') && Installed(m, reported, read, newer, m')
  {
  }

  lemma Replaced(history: seq<Tx>, m: Mem, reported: Option<int>, read: Option<seq<Tx>>, newer: Option<Schedule>,
                 seen: map<string, int>)
    requires Good(history, m) && m.pending.Some? && m.pending.value != m.sched
    requires HasPrefix(m.pending.value, m.sched) && !Extends(m.pending.value, m.sched, m.lastBlock)
    requires Trusted(reported, read, m.lastBlock, m.seen, m.paidUntil) && (newer.Some? ==> newer.value.Valid())
    requires Cursor(history, Reread(reported, read), reported.value, 0, seen)
    requires Remembers(seen, Reread(reported, read), ReadFloor(reported.value, 0))
    ensures var all := Reread(reported, read);
            var m' := Mem(m.pending.value, newer, Fold(all, m.pending.value), reported.value, 0, seen, [], all);
            Good(history, m') && Folded(m') == all && Installed(m, reported, read, newer, m')
  {
    hide Fold, FoldFrom, Resumed, Told, Cursor, Remembers, Reread, Extends, HasPrefix, Trusted;
    FoldFromNothing(Reread(reported, read), m.pending.value);
    NoLives(m.pending.value, Reread(reported, read));
  }

  // ---------------------------------------------------------------- the engine

  class Engine {
    const address: string
    var sched: Schedule
    var paidUntil: Ledger
    var lastBlock: int
    var tip: int
    var seen: map<string, int>
    var seenFrom: int
    var pending: Option<Schedule>

    /** The payment history the source reads from. */
    ghost const history: seq<Tx>
    /** What the processes before this one folded, and what this one has, in folding order. */
    ghost var lives: seq<Life>
    ghost var since: seq<Tx>

    ghost function Memory(): Mem
      reads this
    {
      Mem(sched, pending, paidUntil, lastBlock, seenFrom, seen, lives, since)
    }

    ghost function All(): seq<Tx>
      reads this
    {
      Told(lives) + since
    }

    ghost predicate Valid()
      reads this
    {
      Good(history, Memory())
    }

    constructor (address: string, sched: Schedule, ghost history: seq<Tx>)
      requires sched.Valid() && ChainOrder(history)
      ensures Valid() && Memory() == Fresh(sched) && this.history == history && this.address == address && tip == 0
    {
      this.address, this.sched, this.history := address, sched, history;
      paidUntil, seen, lastBlock, tip, seenFrom, pending := map[], map[], 0, 0, 0, None;
      lives, since := [], [];
      new;
      FreshGood(history, sched);
    }

    /** The height a scan reads history above. */
    function ScanFrom(): int
      reads this
    {
      ReadFloor(lastBlock, seenFrom)
    }

    method Reprice(s: Schedule)
      requires Valid() && s.Valid()
      modifies this`pending
      ensures Valid() && pending == Some(s)
    {
      pending := Some(s);
    }

    /** The loop body of applyTxs for a confirmed transaction at or below the limit. */
    method ApplyOne(tx: Tx) returns (granted: bool, ghost isNew: bool)
      requires ChainOrder(history) && sched.Valid()
      requires tx in history && tx.height > ScanFrom()
      requires Remembers(seen, All(), ScanFrom()) && Drawn(history, All())
      modifies this`paidUntil, this`seen, this`since
      ensures isNew <==> tx !in old(All())
      ensures since == (if isNew then old(since) + [tx] else old(since))
      ensures All() == (if isNew then old(All()) + [tx] else old(All()))
      ensures paidUntil == (if isNew then Grant(old(paidUntil), tx, sched) else old(paidUntil))
      ensures granted <==> isNew && Worth(tx, sched).Some?
      ensures Remembers(seen, All(), ScanFrom()) && Drawn(history, All())
    {
      hide Worth, Remembers;
      HasTxid(history, tx);
      SeenIsFolded(history, All(), ScanFrom(), seen, tx);
      if tx.txid in seen && tx.txid != "" {
        return false, false;
      }
      RememberNext(All(), ScanFrom(), seen, tx, history);
      if tx.txid != "" {
        seen := seen[tx.txid := tx.height];
      }
      var worth := Worth(tx, sched);
      if worth.Some? {
        paidUntil := paidUntil[worth.value.0 := Stack(Get(paidUntil, worth.value.0), worth.value.1, Time(tx))];
      }
      since := since + [tx];
      assert All() == old(All()) + [tx];
      return worth.Some?, true;
    }

    /** Folds a batch oldest-first, skipping what is folded, unconfirmed or above upTo. */
    method ApplyTxs(txs: seq<Tx>, upTo: int) returns (granted: nat, ghost added: seq<Tx>)
      requires ChainOrder(history) && sched.Valid() && Cursor(history, All(), lastBlock, seenFrom, seen) && lastBlock <= upTo
      requires ReadShows(history, ScanFrom(), upTo, txs)
      modifies this`paidUntil, this`seen, this`since
      ensures since == old(since) + added && All() == Extended(old(All()), txs, upTo)
      ensures paidUntil == FoldFrom(old(paidUntil), added, sched) && granted == Credited(added, sched)
      ensures Remembers(seen, All(), ScanFrom())
    {
      hide Extended, FoldFrom, Credited, Grant, Worth, Remembers, ChainOrder, Cursor, ReadShows, Drawn, Done, Told, All;
      CursorIs(history, All(), lastBlock, seenFrom, seen);
      granted, added := 0, [];
      ghost var start, m0 := All(), paidUntil;
      assert txs[..0] == [];
      DoneNothing(start, upTo, m0, sched);
      for i := 0 to |txs|
        invariant since == old(since) + added
        invariant Done(start, txs[..i], upTo, All(), added, m0, paidUntil, granted, sched)
        invariant Remembers(seen, All(), ScanFrom()) && Drawn(history, All())
      {
        var tx := txs[i];
        Shown(history, ScanFrom(), upTo, txs, i);
        DoneNext(start, txs, i, upTo, All(), added, m0, paidUntil, granted, sched);
        if 0 < tx.height <= upTo {
          var paid, isNew := ApplyOne(tx);
          granted := granted + if paid then 1 else 0;
          if isNew {
            added := added + [tx];
          }
        }
      }
      assert txs[..|txs|] == txs;
      DoneMeans(start, txs, upTo, All(), added, m0, paidUntil, granted, sched);
    }

    /** One poll: folds everything new up to the reported height and moves the cursor there. `reported`
        and `read` are the two answers of the source, None an error. */
    method Scan(reported: Option<int>, read: Option<seq<Tx>>, force: bool) returns (ok: bool, granted: nat)
      requires Valid()
      requires reported.Some? && read.Some? ==> ReadShows(history, ScanFrom(), reported.value, read.value)
      modifies this`paidUntil, this`seen, this`since, this`lastBlock, this`tip
      ensures Valid() && Scanned(old(Memory()), reported, read, force, Memory())
      ensures ok <==> reported.Some? && reported.value > 0
                      && (reported.value > old(lastBlock) || (reported.value == old(lastBlock) && force) ==> read.Some?)
      ensures old(since) <= since && granted == Credited(since[|old(since)|..], sched)
      ensures tip == (if reported.Some? && reported.value > old(tip) && reported.value > 0 then reported.value else old(tip))
    {
      hide Remembers, ReadShows, Extended, Fold, FoldFrom, Credited, ChainOrder, Cursor, Resumed;
      granted := 0;
      NoneCredited(since, sched);
      if reported.None? {
        return false, 0;
      }
      var height := reported.value;
      if height <= 0 {
        return false, 0;
      }
      if height > tip {
        tip := height;
      }
      var last := lastBlock;
      if height < last || (height == last && !force) {
        return true, 0;
      }
      if read.None? {
        return false, 0;
      }
      granted := Advance(read.value, height);
      ok := true;
    }

    /** The part of a scan that folds what was read and moves the cursor. */
    method Advance(txs: seq<Tx>, height: int) returns (granted: nat)
      requires Valid() && lastBlock <= height && 0 < height && ReadShows(history, ScanFrom(), height, txs)
      modifies this`paidUntil, this`seen, this`since, this`lastBlock
      ensures Valid() && lastBlock == height && old(since) <= since
      ensures paidUntil == FoldFrom(old(paidUntil), since[|old(since)|..], sched)
      ensures All() == Extended(old(All()), txs, height) && Remembers(seen, All(), ReadFloor(height, seenFrom))
      ensures granted == Credited(since[|old(since)|..], sched)
    {
      hide Remembers, ReadShows, Extended, Fold, FoldFrom, Credited, ChainOrder, Cursor, Resumed, Told;
      ghost var before, seen0 := All(), seen;
      ghost var added;
      granted, added := ApplyTxs(txs, height);
      assert since[|old(since)|..] == added;
      FoldFromSplit(Resumed(lives, sched), old(since), added, sched);
      PrunedRemembers(seen, All(), ScanFrom(), height - OVERLAP);
      seen := Pruned(seen, height - OVERLAP);
      ScanKeepsCursor(history, before, lastBlock, seenFrom, seen0, height, txs, seen);
      lastBlock := height;
    }

    /** The loop of rebuild: the whole read folded into an empty ledger, each txid once. */
    method Replay(next: Schedule, txs: seq<Tx>, height: int)
      returns (ledger: Ledger, ids: set<string>, recent: map<string, int>, n: nat)
      requires ChainOrder(history) && next.Valid() && ReadShows(history, 0, height, txs)
      ensures ledger == Fold(Extended([], txs, height), next) && n == |Extended([], txs, height)|
      ensures Names(ids, Extended([], txs, height))
      ensures Remembers(recent, Extended([], txs, height), ReadFloor(height, 0))
    {
      hide Extended, Fold, Grant, Worth, Remembers, Names, ChainOrder, ReadShows, Drawn;
      ledger, ids, recent, n := map[], {}, map[], 0;
      ghost var all: seq<Tx> := [];
      NothingYet(history, ReadFloor(height, 0), next);
      assert txs[..0] == [];
      for i := 0 to |txs|
        invariant all == Extended([], txs[..i], height) && ledger == Fold(all, next) && n == |all|
        invariant Names(ids, all) && Remembers(recent, all, ReadFloor(height, 0)) && Drawn(history, all)
      {
        var tx := txs[i];
        Shown(history, 0, height, txs, i);
        ExtendedNext([], txs, i, height);
        if 0 < tx.height <= height {
          NamedIsFolded(history, all, ids, tx);
          if !(tx.txid != "" && tx.txid in ids) {
            RecordNext(history, all, ids, recent, ReadFloor(height, 0), tx);
            FoldNext(all, tx, next);
            ids := ids + {tx.txid};
            if tx.height > height - OVERLAP && tx.txid != "" {
              recent := recent[tx.txid := tx.height];
            }
            ledger := Grant(ledger, tx, next);
            n := n + 1;
            all := all + [tx];
          }
        }
      }
      assert txs[..|txs|] == txs;
    }

    /** Derives the ledger from height 0 under `next`, refusing a visibly incomplete history. */
    method Rebuild(next: Schedule, reported: Option<int>, read: Option<seq<Tx>>)
      returns (r: Option<Rebuilt>, ghost all: seq<Tx>)
      requires Valid() && next.Valid()
      requires reported.Some? && read.Some? ==> ReadShows(history, 0, reported.value, read.value)
      ensures all == Reread(reported, read)
      ensures r.Some? <==> Trusted(reported, read, lastBlock, seen, paidUntil)
      ensures r.Some? ==> && r.value.ledger == Fold(all, next) && r.value.height == reported.value
                          && Cursor(history, all, r.value.height, 0, r.value.seen)
                          && Remembers(r.value.seen, all, ReadFloor(r.value.height, 0))
                          && (forall t :: t in All() && (t.height > seenFrom || t.height <= lastBlock - OVERLAP) ==> t in all)
                          && (seenFrom == 0 ==> forall t :: t in All() ==> t in all)
    {
      hide Fold, FoldFrom, Resumed, Extended, Cursor, Remembers, ReadShows, Names, ChainOrder;
      all := Reread(reported, read);
      if reported.None? || reported.value <= 0 || reported.value < lastBlock || read.None? {
        return None, all;
      }
      var ledger, ids, recent, n := Replay(next, read.value, reported.value);
      NamesKnown(ids, all, seen);
      if !(seen.Keys <= ids) || (paidUntil != map[] && n == 0) {
        return None, all;
      }
      RebuiltCursor(history, read.value, reported.value, recent, All(), lastBlock, seenFrom, seen, ids);
      r := Some(Rebuilt(ledger, recent, reported.value));
    }

    /** Installs a schedule handed over by Reprice: a prospective one by a swap, one that reaches below
        the cursor by a rebuild, one that edits the running schedule not at all. `newer` is a schedule
        that arrives while a rebuild runs. */
    method ApplyPending(reported: Option<int>, read: Option<seq<Tx>>, newer: Option<Schedule>)
      requires Valid() && (newer.Some? ==> newer.value.Valid())
      requires reported.Some? && read.Some? ==> ReadShows(history, 0, reported.value, read.value)
      modifies this
      ensures Valid() && Installed(old(Memory()), reported, read, newer, Memory()) && tip == old(tip)
      ensures forall t :: t in old(All()) && (t.height > old(seenFrom) || t.height <= old(lastBlock) - OVERLAP) ==> t in All()
      ensures old(seenFrom) == 0 ==> forall t :: t in old(All()) ==> t in All()
    {
      hide Installed, Good, Fold, FoldFrom, Cursor, Remembers, ReadShows, ChainOrder, Reread, Extends, HasPrefix, Trusted, Told;
      ghost var m := Memory();
      SchedulesAreValid(history, m);
      var p := pending;
      pending := None;
      Kept(history, m, reported, read, newer);
      if p.None? {
        return;
      }
      var next := p.value;
      if next == sched || !HasPrefix(next, sched) {
        return;
      }
      if Extends(next, sched, lastBlock) {
        Swapped(history, m, reported, read, newer);
        sched := next;
        return;
      }
      var r, all := Rebuild(next, reported, read);
      pending := newer;
      if r.None? {
        if pending.None? { pending := p; }
        Retried(history, m, reported, read, newer);
        return;
      }
      sched, paidUntil, seen, seenFrom, lastBlock := next, r.value.ledger, r.value.seen, 0, r.value.height;
      lives, since := [], all;
      Replaced(history, m, reported, read, newer, seen);
    }

    /** What is written to disk at `now`: expired codes dropped, whole seconds. */
    method Save(now: int) returns (s: Snapshot)
      requires Valid()
      ensures s == Snapshot(SNAPSHOT_VERSION, address, Some(sched), lastBlock, Saved(paidUntil, now), Some(seen), seenFrom)
      ensures Genuine(history, s, lives + [Life(since, now)])
    {
      hide Saved, Loaded, FoldFrom, Cursor;
      s := Snapshot(SNAPSHOT_VERSION, address, Some(sched), lastBlock, Saved(paidUntil, now), Some(seen), seenFrom);
      OneMoreLife(lives, since, now, sched);
    }

    /** Restores a snapshot written over the same history (at the end of the lives `was`); refuses one
        for another format, address or price history. */
    method Load(s: Snapshot, ghost was: seq<Life>) returns (ok: bool)
      requires Valid()
      modifies this`paidUntil, this`lastBlock, this`seen, this`seenFrom, this`lives, this`since
      ensures ok <==> && s.version == SNAPSHOT_VERSION && s.address == address && s.lastBlock >= 0
                      && s.schedule.Some? && Extends(sched, s.schedule.value, s.lastBlock)
      ensures !ok ==> Memory() == old(Memory())
      ensures ok ==> && paidUntil == Loaded(s.paidUntil) && lastBlock == s.lastBlock && lives == was && since == []
                     && (if s.seen.Some? then seen == s.seen.value && seenFrom == s.seenFrom else seen == map[] && seenFrom == s.lastBlock)
      ensures !ok || Genuine(history, s, was) ==> Valid()
    {
      hide FoldFrom, Resumed, Remembers, ChainOrder, Loaded, Extends, Cursor;
      if s.version != SNAPSHOT_VERSION || s.address != address || s.lastBlock < 0 || s.schedule.None? {
        return false;
      }
      if !Extends(sched, s.schedule.value, s.lastBlock) {
        return false;
      }
      paidUntil := Loaded(s.paidUntil);
      lastBlock := s.lastBlock;
      if s.seen.Some? {
        seen, seenFrom := s.seen.value, s.seenFrom;
      } else {
        seen, seenFrom := map[], s.lastBlock;
      }
      lives, since := was, [];
      NothingSince(was, paidUntil, sched);
      if Genuine(history, s, was) {
        ExtendsKeepsGood(history, Memory(), sched, s.schedule.value);
      }
      ok := true;
    }
  }

  /** A process's start: on the snapshot found, if it is usable, else from height 0. */
  method Boot(address: string, sched: Schedule, file: Option<Snapshot>, ghost history: seq<Tx>, ghost lives: seq<Life>)
    returns (e: Engine)
    requires sched.Valid() && ChainOrder(history)
    requires file.Some? ==> Genuine(history, file.value, lives)
    ensures fresh(e) && e.Valid() && e.history == history && e.address == address
    ensures Booted(address, sched, file, lives, e.Memory())
  {
    hide Cursor, FoldFrom, Resumed, Loaded, ChainOrder, Extends;
    e := new Engine(address, sched, history);
    if file.Some? {
      var _ := e.Load(file.value, lives);
    }
  }

  lemma NoneCredited(since: seq<Tx>, s: Schedule)
    requires s.Valid()
    ensures since <= since && Credited(since[|since|..], s) == 0
  {
  }

  lemma NoLives(s: Schedule, all: seq<Tx>)
    requires s.Valid()
    ensures Resumed([], s) == map[] && Told([]) + all == all
  {
  }

  lemma OneMoreLife(lives: seq<Life>, since: seq<Tx>, now: int, s: Schedule)
    requires s.Valid()
    ensures Told(lives + [Life(since, now)]) == Told(lives) + since
    ensures Resumed(lives + [Life(since, now)], s) == Loaded(Saved(FoldFrom(Resumed(lives, s), since, s), now))
  {
    var all := lives + [Life(since, now)];
    assert all[..|all| - 1] == lives;
  }

  lemma NothingSince(lives: seq<Life>, m: Ledger, s: Schedule)
    requires s.Valid()
    ensures Told(lives) + [] == Told(lives) && FoldFrom(m, [], s) == m
  {
  }

  // ---------------------------------------------------------------- what the engine answers

  /** An engine that never resumed from a snapshot holds exactly the fold of what it folded. */
  lemma LedgerIsFold(m: Mem)
    requires m.sched.Valid() && m.paidUntil == FoldFrom(Resumed(m.lives, m.sched), m.since, m.sched) && m.lives == []
    ensures m.paidUntil == Fold(Folded(m), m.sched)
  {
    NoLives(m.sched, m.since);
    FoldFromNothing(m.since, m.sched);
    hide Fold, FoldFrom, Resumed;
  }

  /** Two such gateways under one schedule, with gapless reads up to one height, hold the same map. */
  lemma SameChainSameLedger(history: seq<Tx>, a: Mem, b: Mem, v: int)
    requires Good(history, a) && Good(history, b) && a.sched == b.sched && a.lives == b.lives == []
    requires FoldedTo(history, Folded(a), a.lastBlock, v) && FoldedTo(history, Folded(b), b.lastBlock, v)
    ensures a.paidUntil == b.paidUntil == Fold(Slice(history, 0, v), a.sched)
  {
    LedgerIsFold(a);
    LedgerIsFold(b);
  }

  /** Whatever its restarts, a gateway's premium answers from its last save on are those of the plain
      fold of everything ever folded, if no payment folded after a save came in dated before the expiry
      of a code that save dropped. */
  lemma AnswersAreTheFolds(history: seq<Tx>, m: Mem, code: string, now: int)
    requires Good(history, m) && AllPrompt(m.lives, m.since, m.sched) && NoOverflow(Folded(m), m.sched)
    requires now >= ZERO_TIME && forall k :: 0 <= k < |m.lives| ==> m.lives[k].savedAt <= now
    ensures Premium(m.paidUntil, code, now) == Premium(Fold(Folded(m), m.sched), code, now)
  {
    hide Fold, FoldFrom, Resumed, AllPrompt, NoOverflow, Cursor;
    RestartAnswers(m.lives, m.since, m.sched, code, now);
  }

  /** A gateway that restarted, any number of times, answers like one that never stopped, once both have
      folded the history up to one height. */
  lemma RestartAgrees(a: Engine, b: Engine, v: int, code: string, now: int)
    requires a.Valid() && b.Valid() && a.history == b.history && a.sched == b.sched && a.lives == []
    requires FoldedTo(a.history, a.All(), a.lastBlock, v) && FoldedTo(b.history, b.All(), b.lastBlock, v)
    requires AllPrompt(b.lives, b.since, b.sched) && NoOverflow(b.All(), b.sched)
    requires now >= ZERO_TIME && forall k :: 0 <= k < |b.lives| ==> b.lives[k].savedAt <= now
    ensures Premium(a.paidUntil, code, now) == Premium(b.paidUntil, code, now)
  {
    hide Fold, FoldFrom, Resumed, AllPrompt, NoOverflow, Cursor;
    LedgerIsFold(a.Memory());
    AnswersAreTheFolds(b.history, b.Memory(), code, now);
  }
}
