/** Every run of a gateway's entitlement engine: polls, reprices, checkpoints, and restarts on any
    snapshot file it ever wrote, under any schedule. */
module EntitlementRuns {
  import opened Common
  import opened PriceSchedule
  import opened GrantRules
  import opened PaymentFold
  import opened Entitlement

  /** A snapshot file, with the lives whose work it holds. */
  datatype File = File(snap: Snapshot, lives: seq<Life>)

  datatype World = World(mem: Mem, files: seq<File>)

  datatype Event =
    | Poll(reported: Option<int>, read: Option<seq<Tx>>, force: bool)
    | Reprice(sched: Schedule)
    | Install(reported: Option<int>, read: Option<seq<Tx>>, newer: Option<Schedule>)
    | Checkpoint(now: int)
    | Restart(sched: Schedule, file: Option<nat>)   // on a file still on disk, or on none

  /** The payment address and its history, past and future. */
  datatype Chain = Chain(address: string, history: seq<Tx>)

  /** What can happen: the source shows what it must, schedules parse, files exist. */
  ghost predicate Enabled(c: Chain, w: World, ev: Event) {
    match ev
    case Poll(reported, read, _) =>
      reported.Some? && read.Some? ==> ReadShows(c.history, ReadFloor(w.mem.lastBlock, w.mem.floor), reported.value, read.value)
    case Reprice(sched) => sched.Valid()
    case Install(reported, read, newer) =>
      && (newer.Some? ==> newer.value.Valid())
      && (reported.Some? && read.Some? ==> ReadShows(c.history, 0, reported.value, read.value))
    case Checkpoint(_) => true
    case Restart(sched, file) => sched.Valid() && (file.Some? ==> file.value < |w.files|)
  }

  function Written(c: Chain, m: Mem, now: int): File {
    File(Snapshot(SNAPSHOT_VERSION, c.address, Some(m.sched), m.lastBlock, Saved(m.paidUntil, now), Some(m.seen), m.floor),
         m.lives + [Life(m.since, now)])
  }

  /** What the engine's methods do: each step is the contract of the method of the same purpose. */
  ghost predicate Next(c: Chain, w: World, ev: Event, w': World)
    requires w.mem.sched.Valid() && (w.mem.pending.Some? ==> w.mem.pending.value.Valid())
  {
    match ev
    case Poll(reported, read, force) => w'.files == w.files && Scanned(w.mem, reported, read, force, w'.mem)
    case Reprice(sched) => w' == w.(mem := w.mem.(pending := Some(sched)))
    case Install(reported, read, newer) => w'.files == w.files && Installed(w.mem, reported, read, newer, w'.mem)
    case Checkpoint(now) => w' == w.(files := w.files + [Written(c, w.mem, now)])
    case Restart(sched, file) =>
      && w'.files == w.files
      && if file.Some? && file.value < |w.files|
         then Booted(c.address, sched, Some(w.files[file.value].snap), w.files[file.value].lives, w'.mem)
         else Booted(c.address, sched, None, [], w'.mem)
  }

  ghost predicate AllGood(c: Chain, w: World) {
    Good(c.history, w.mem) && forall k :: 0 <= k < |w.files| ==> Genuine(c.history, w.files[k].snap, w.files[k].lives)
  }

  /** A run from nothing, but for files an earlier deployment may have left, with or without `seen`. */
  ghost predicate IsRun(c: Chain, ws: seq<World>, evs: seq<Event>) {
    && ChainOrder(c.history) && |ws| == |evs| + 1
    && ws[0].mem.sched.Valid() && ws[0].mem == Fresh(ws[0].mem.sched)
    && (forall k :: 0 <= k < |ws[0].files| ==> Genuine(c.history, ws[0].files[k].snap, ws[0].files[k].lives))
    && forall i :: 0 <= i < |evs| ==>
         && ws[i].mem.sched.Valid() && (ws[i].mem.pending.Some? ==> ws[i].mem.pending.value.Valid())
         && Enabled(c, ws[i], evs[i]) && Next(c, ws[i], evs[i], ws[i + 1])
  }

  // ---------------------------------------------------------------- the invariant

  lemma PollKeeps(history: seq<Tx>, m: Mem, reported: Option<int>, read: Option<seq<Tx>>, force: bool, m': Mem)
    requires Good(history, m) && Scanned(m, reported, read, force, m')
    requires reported.Some? && read.Some? ==> ReadShows(history, ReadFloor(m.lastBlock, m.floor), reported.value, read.value)
    ensures Good(history, m')
  {
    hide FoldFrom, Resumed, Extended, Remembers, ChainOrder, ReadShows, Told;
    if Goes(m.lastBlock, reported, read, force) {
      ScanKeepsCursor(history, Folded(m), m.lastBlock, m.floor, m.seen, reported.value, read.value, m'.seen);
      hide Cursor;
      var added := m'.since[|m.since|..];
      assert m'.since == m.since + added;
      FoldFromSplit(Resumed(m.lives, m.sched), m.since, added, m.sched);
    }
  }

  lemma InstallKeeps(history: seq<Tx>, m: Mem, reported: Option<int>, read: Option<seq<Tx>>, newer: Option<Schedule>, m': Mem)
    requires Good(history, m) && (newer.Some? ==> newer.value.Valid()) && Installed(m, reported, read, newer, m')
    requires reported.Some? && read.Some? ==> ReadShows(history, 0, reported.value, read.value)
    ensures Good(history, m')
    ensures forall t :: t in Folded(m) && (t.height > m.floor || t.height <= m.lastBlock - OVERLAP) ==> t in Folded(m')
  {
    hide FoldFrom, Fold, Resumed, Extended, ChainOrder, ReadShows, Told, HasPrefix, Extends, Cursor, Remembers;
    match Verdict(m.pending, m.sched, m.lastBlock, Trusted(reported, read, m.lastBlock, m.seen, m.paidUntil))
    case Keep =>
    case Retry =>
    case Swap =>
      ExtendsKeepsGood(history, m, m.pending.value, m.sched);
    case Replace =>
      var all := Reread(reported, read);
      var ids := set t | t in all :: t.txid;
      NamesAll(all);
      NamesKnown(ids, all, m.seen);
      RebuiltCursor(history, read.value, reported.value, m'.seen, Folded(m), m.lastBlock, m.floor, m.seen, ids);
      FoldFromNothing(all, m.pending.value);
      NoLives(m.pending.value, all);
  }

  lemma NamesAll(all: seq<Tx>)
    ensures Names(set t | t in all :: t.txid, all)
  {
  }

  lemma CheckpointGenuine(c: Chain, m: Mem, now: int)
    requires Good(c.history, m)
    ensures Genuine(c.history, Written(c, m, now).snap, Written(c, m, now).lives)
  {
    hide FoldFrom, Resumed, Told, Saved, Loaded, Cursor;
    OneMoreLife(m.lives, m.since, now, m.sched);
  }

  lemma BootKeeps(c: Chain, sched: Schedule, file: Option<Snapshot>, lives: seq<Life>, m': Mem)
    requires ChainOrder(c.history) && sched.Valid() && Booted(c.address, sched, file, lives, m')
    requires file.Some? ==> Genuine(c.history, file.value, lives)
    ensures Good(c.history, m')
  {
    hide FoldFrom, Resumed, Told, Loaded, Cursor, Extends, ChainOrder;
    FreshGood(c.history, sched);
    if file.Some? && Accepts(file.value, c.address, sched) {
      NothingSince(lives, m'.paidUntil, sched);
      ExtendsKeepsGood(c.history, m', sched, file.value.schedule.value);
    }
  }

  lemma StepKeeps(c: Chain, w: World, ev: Event, w': World)
    requires AllGood(c, w) && Enabled(c, w, ev) && Next(c, w, ev, w')
    ensures AllGood(c, w')
  {
    hide Good, Genuine, Scanned, Installed, Booted, ReadShows;
    assert ChainOrder(c.history) by { GoodHistory(c.history, w.mem); }
    match ev
    case Poll(reported, read, force) => PollKeeps(c.history, w.mem, reported, read, force, w'.mem);
    case Reprice(sched) => PendingKeeps(c.history, w.mem, sched);
    case Install(reported, read, newer) => InstallKeeps(c.history, w.mem, reported, read, newer, w'.mem);
    case Checkpoint(now) => CheckpointGenuine(c, w.mem, now);
    case Restart(sched, file) =>
      if file.Some? && file.value < |w.files| {
        BootKeeps(c, sched, Some(w.files[file.value].snap), w.files[file.value].lives, w'.mem);
      } else {
        BootKeeps(c, sched, None, [], w'.mem);
      }
  }

  lemma GoodHistory(history: seq<Tx>, m: Mem)
    requires Good(history, m)
    ensures ChainOrder(history) && m.sched.Valid()
  {
  }

  lemma PendingKeeps(history: seq<Tx>, m: Mem, sched: Schedule)
    requires Good(history, m) && sched.Valid()
    ensures Good(history, m.(pending := Some(sched)))
  {
  }

  /** In every world of every run the engine's invariant holds: each transaction of the history folded at
      most once, none 40 blocks or more below the cursor missing, the dedup map that of the overlap, the
      ledger the fold of what was folded, over what was resumed from. */
  lemma {:induction false} RunKeeps(c: Chain, ws: seq<World>, evs: seq<Event>, n: nat)
    requires IsRun(c, ws, evs) && n < |ws|
    ensures AllGood(c, ws[n])
  {
    hide AllGood, Next, Enabled, ChainOrder;
    if n == 0 {
      FreshAllGood(c, ws[0]);
    } else {
      RunKeeps(c, ws, evs, n - 1);
      StepKeeps(c, ws[n - 1], evs[n - 1], ws[n]);
    }
  }

  lemma FreshAllGood(c: Chain, w: World)
    requires ChainOrder(c.history) && w.mem.sched.Valid() && w.mem == Fresh(w.mem.sched)
    requires forall k :: 0 <= k < |w.files| ==> Genuine(c.history, w.files[k].snap, w.files[k].lives)
    ensures AllGood(c, w)
  {
    FreshGood(c.history, w.mem.sched);
    hide Good;
  }

  /** What a file without `seen` lacks at or below its cursor no poll makes up for; a rebuild does, up to
      the overlap. */
  lemma PollLeavesBelowFloor(history: seq<Tx>, m: Mem, reported: Option<int>, read: Option<seq<Tx>>, force: bool, m': Mem)
    requires Good(history, m) && Scanned(m, reported, read, force, m')
    requires reported.Some? && read.Some? ==> ReadShows(history, ReadFloor(m.lastBlock, m.floor), reported.value, read.value)
    ensures m'.floor == m.floor
    ensures forall t :: t in history && t.height <= m.floor ==> (t in Folded(m') <==> t in Folded(m))
  {
    hide FoldFrom, Resumed, Extended, Remembers, Told, Cursor;
    if Goes(m.lastBlock, reported, read, force) {
      ExtendedMembers(Folded(m), read.value, reported.value);
      forall t | t in history ensures t.height > 0 { HasTxid(history, t); }
    }
  }

  // ---------------------------------------------------------------- gapless reads

  /** Every read that is used shows the history without a gap, up to some height at most 40 blocks
      behind the reported one. */
  ghost predicate Gapless(c: Chain, w: World, ev: Event) {
    match ev
    case Poll(reported, read, force) =>
      Goes(w.mem.lastBlock, reported, read, force) ==>
        exists v :: ShowsTo(c.history, ReadFloor(w.mem.lastBlock, w.mem.floor), reported.value, v, read.value)
    case Install(reported, read, _) =>
      reported.Some? && reported.value > 0 && read.Some? ==> exists v :: ShowsTo(c.history, 0, reported.value, v, read.value)
    case _ => true
  }

  /** The folded transactions are exactly the history up to some height not below the floor, in chain
      order, once each. */
  ghost predicate Prefix(history: seq<Tx>, folded: seq<Tx>, last: int, floor: int) {
    exists v :: FoldedTo(history, folded, last, v) && floor <= v
  }

  ghost predicate FilePrefix(c: Chain, f: File) {
    Prefix(c.history, Told(f.lives), f.snap.lastBlock, FileFloor(f.snap))
  }

  ghost predicate AllPrefix(c: Chain, w: World) {
    && Prefix(c.history, Folded(w.mem), w.mem.lastBlock, w.mem.floor)
    && forall k :: 0 <= k < |w.files| ==> FilePrefix(c, w.files[k])
  }

  lemma PollPrefix(c: Chain, m: Mem, reported: Option<int>, read: Option<seq<Tx>>, force: bool, m': Mem)
    requires Good(c.history, m) && Scanned(m, reported, read, force, m') && Prefix(c.history, Folded(m), m.lastBlock, m.floor)
    requires Goes(m.lastBlock, reported, read, force) ==>
               exists v :: ShowsTo(c.history, ReadFloor(m.lastBlock, m.floor), reported.value, v, read.value)
    ensures Prefix(c.history, Folded(m'), m'.lastBlock, m'.floor)
  {
    hide FoldFrom, Resumed, Extended, Remembers, ChainOrder, Told, Slice, Cursor;
    if Goes(m.lastBlock, reported, read, force) {
      var was :| FoldedTo(c.history, Folded(m), m.lastBlock, was) && m.floor <= was;
      var v :| ShowsTo(c.history, ReadFloor(m.lastBlock, m.floor), reported.value, v, read.value);
      GaplessScan(c.history, was, ReadFloor(m.lastBlock, m.floor), v, reported.value);
      assert FoldedTo(c.history, Folded(m'), m'.lastBlock, Max(was, Min(v, reported.value)));
    }
  }

  lemma InstallPrefix(c: Chain, m: Mem, reported: Option<int>, read: Option<seq<Tx>>, newer: Option<Schedule>, m': Mem)
    requires Good(c.history, m) && Installed(m, reported, read, newer, m') && Prefix(c.history, Folded(m), m.lastBlock, m.floor)
    requires reported.Some? && reported.value > 0 && read.Some? ==>
               exists v :: ShowsTo(c.history, 0, reported.value, v, read.value)
    ensures Prefix(c.history, Folded(m'), m'.lastBlock, m'.floor)
  {
    hide FoldFrom, Fold, Resumed, Extended, Remembers, Slice, Cursor, Told, HasPrefix, Extends;
    if Verdict(m.pending, m.sched, m.lastBlock, Trusted(reported, read, m.lastBlock, m.seen, m.paidUntil)) == Replace {
      var v :| ShowsTo(c.history, 0, reported.value, v, read.value);
      NoHeights(c.history, 0);
      GaplessScan(c.history, 0, 0, v, reported.value);
      NoLives(m.pending.value, Reread(reported, read));
      assert FoldedTo(c.history, Folded(m'), m'.lastBlock, Max(0, Min(v, reported.value)));
    }
  }

  lemma StepPrefix(c: Chain, w: World, ev: Event, w': World)
    requires AllGood(c, w) && AllPrefix(c, w) && Enabled(c, w, ev) && Next(c, w, ev, w') && Gapless(c, w, ev)
    ensures AllPrefix(c, w')
  {
    hide Good, Genuine, Scanned, Installed, ReadShows, Prefix, FoldFrom, Resumed, Saved, Loaded, ShowsTo, Extends;
    match ev
    case Poll(reported, read, force) => PollPrefix(c, w.mem, reported, read, force, w'.mem);
    case Reprice(_) =>
    case Install(reported, read, newer) => InstallPrefix(c, w.mem, reported, read, newer, w'.mem);
    case Checkpoint(now) =>
      GoodHistory(c.history, w.mem);
      OneMoreLife(w.mem.lives, w.mem.since, now, w.mem.sched);
    case Restart(sched, _) =>
      GoodHistory(c.history, w.mem);
      FreshPrefix(c.history, sched);
      NothingSince(w'.mem.lives, w'.mem.paidUntil, sched);
  }

  lemma FreshPrefix(history: seq<Tx>, sched: Schedule)
    requires ChainOrder(history) && sched.Valid()
    ensures Prefix(history, Folded(Fresh(sched)), Fresh(sched).lastBlock, 0)
  {
    FreshGood(history, sched);
    assert Folded(Fresh(sched)) == [];
    assert FoldedTo(history, Folded(Fresh(sched)), 0, 0);
  }

  /** With gapless reads, in every world of every run exactly a prefix of the history is folded, in chain
      order, at most 40 blocks behind the cursor: through rebuilds and restarts as well, if that holds of
      the files found at the start, of those without `seen` up to their cursor. */
  lemma {:induction false} RunFoldsPrefix(c: Chain, ws: seq<World>, evs: seq<Event>, n: nat)
    requires IsRun(c, ws, evs) && n < |ws|
    requires forall i :: 0 <= i < |evs| ==> Gapless(c, ws[i], evs[i])
    requires forall k :: 0 <= k < |ws[0].files| ==> FilePrefix(c, ws[0].files[k])
    ensures AllPrefix(c, ws[n])
  {
    hide AllGood, AllPrefix, Next, Enabled, ChainOrder, Gapless;
    if n == 0 {
      FreshAllPrefix(c, ws[0]);
    } else {
      RunFoldsPrefix(c, ws, evs, n - 1);
      RunKeeps(c, ws, evs, n - 1);
      StepPrefix(c, ws[n - 1], evs[n - 1], ws[n]);
    }
  }

  lemma FreshAllPrefix(c: Chain, w: World)
    requires ChainOrder(c.history) && w.mem.sched.Valid() && w.mem == Fresh(w.mem.sched)
    requires forall k :: 0 <= k < |w.files| ==> FilePrefix(c, w.files[k])
    ensures AllPrefix(c, w)
  {
    FreshPrefix(c.history, w.mem.sched);
    hide Prefix;
  }

  // ---------------------------------------------------------------- what gateways answer

  /** In every world of every run a code's premium answer, from the last save on, is that of the plain
      fold of the history up to the height folded, under the schedule in force. */
  lemma RunAnswers(c: Chain, ws: seq<World>, evs: seq<Event>, n: nat, code: string, now: int) returns (v: int)
    requires IsRun(c, ws, evs) && n < |ws|
    requires forall i :: 0 <= i < |evs| ==> Gapless(c, ws[i], evs[i])
    requires forall k :: 0 <= k < |ws[0].files| ==> FilePrefix(c, ws[0].files[k])
    requires var m := ws[n].mem; m.sched.Valid() && AllPrompt(m.lives, m.since, m.sched) && NoOverflow(Folded(m), m.sched)
    requires now >= ZERO_TIME && forall k :: 0 <= k < |ws[n].mem.lives| ==> ws[n].mem.lives[k].savedAt <= now
    ensures var m := ws[n].mem;
            && m.lastBlock - OVERLAP <= v <= m.lastBlock && Folded(m) == Slice(c.history, 0, v)
            && Premium(m.paidUntil, code, now) == Premium(Fold(Slice(c.history, 0, v), m.sched), code, now)
  {
    hide IsRun, Gapless, AllPrompt, NoOverflow, Fold, FoldFrom, Cursor, Resumed, Told, Slice;
    RunKeeps(c, ws, evs, n);
    RunFoldsPrefix(c, ws, evs, n);
    var m := ws[n].mem;
    v :| FoldedTo(c.history, Folded(m), m.lastBlock, v);
    AnswersAreTheFolds(c.history, m, code, now);
  }
}
