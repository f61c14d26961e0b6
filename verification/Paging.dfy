/** Reading the address history page by page (gateway/internal/fluxnode/fluxnode.go). */
module Paging {
  import opened Common
  import opened PaymentFold
  import Entitlement

  const PAGE_SIZE: nat := 50

  /** Part of a listing; an unconfirmed transaction has no positive height. */
  datatype Page = Page(total: nat, items: seq<Tx>)

  // ---------------------------------------------------------------- what the loop computes

  datatype Scan = Scan(out: seq<Tx>, seen: set<string>, stopped: bool)

  const START: Scan := Scan([], {}, false)

  function OneItem(s: Scan, tx: Tx, after: int): Scan {
    if s.stopped || tx.height <= 0 || tx.txid in s.seen then s
    else if tx.height <= after then Scan(s.out, s.seen + {tx.txid}, true)
    else Scan(s.out + [tx], s.seen + {tx.txid}, false)
  }

  function Items(s: Scan, items: seq<Tx>, after: int): Scan {
    if items == [] then s else OneItem(Items(s, items[..|items| - 1], after), items[|items| - 1], after)
  }

  /** Page k and on; answers[k] is what its request got, None an error. Running out of answers is a
      cancelled read. */
  function ReadFrom(answers: seq<Option<Page>>, after: int, k: nat, s: Scan): Option<seq<Tx>>
    decreases |answers| - k
  {
    if k >= |answers| || answers[k].None? then None
    else
      var page := answers[k].value;
      var t := Items(s, page.items, after);
      if t.stopped || PAGE_SIZE * (k + 1) >= page.total || page.items == [] then Some(Reversed(t.out))
      else ReadFrom(answers, after, k + 1, t)
  }

  /** The confirmed transactions above the cursor, oldest first. */
  method AddressTxs(answers: seq<Option<Page>>, after: int) returns (r: Option<seq<Tx>>)
    ensures r == ReadFrom(answers, after, 0, START)
  {
    var out: seq<Tx> := [];
    var seen: set<string> := {};
    var k := 0;
    while k < |answers|
      invariant k <= |answers|
      invariant ReadFrom(answers, after, 0, START) == ReadFrom(answers, after, k, Scan(out, seen, false))
    {
      if answers[k].None? {
        return None;
      }
      var page := answers[k].value;
      ghost var s := Scan(out, seen, false);
      var stop := false;
      for i := 0 to |page.items|
        invariant Scan(out, seen, stop) == Items(s, page.items[..i], after)
        invariant !stop
      {
        assert page.items[..i + 1][..i] == page.items[..i];
        var tx := page.items[i];
        if tx.height <= 0 || tx.txid in seen {
          continue;
        }
        seen := seen + {tx.txid};
        if tx.height <= after {
          StoppedStays(s, page.items, after, i + 1);
          r := ReversedCopy(out);
          return;
        }
        out := out + [tx];
      }
      assert page.items[..|page.items|] == page.items;
      if PAGE_SIZE * (k + 1) >= page.total || page.items == [] {
        r := ReversedCopy(out);
        return;
      }
      k := k + 1;
    }
    r := None;
  }

  method ReversedCopy(out: seq<Tx>) returns (r: Option<seq<Tx>>)
    ensures r == Some(Reversed(out))
  {
    var txs := new Tx[|out|](i requires 0 <= i < |out| => out[i]);
    assert txs[..] == out;
    ReverseInPlace(txs);
    r := Some(txs[..]);
  }

  method ReverseInPlace(txs: array<Tx>)
    modifies txs
    ensures txs[..] == Reversed(old(txs[..]))
  {
    var i, j := 0, txs.Length - 1;
    while i < j
      invariant 0 <= i <= j + 1 && j == txs.Length - 1 - i
      invariant forall k :: 0 <= k < i || j < k < txs.Length ==> txs[k] == old(txs[txs.Length - 1 - k])
      invariant forall k :: i <= k <= j ==> txs[k] == old(txs[k])
    {
      txs[i], txs[j] := txs[j], txs[i];
      i, j := i + 1, j - 1;
    }
    assert forall k :: 0 <= k < txs.Length ==> txs[..][k] == old(txs[..])[txs.Length - 1 - k];
  }

  lemma {:induction false} StoppedStays(s: Scan, items: seq<Tx>, after: int, i: nat)
    requires i <= |items| && Items(s, items[..i], after).stopped
    ensures Items(s, items, after) == Items(s, items[..i], after)
    decreases |items|
  {
    if i == |items| {
      assert items[..i] == items;
    } else {
      var n := |items| - 1;
      assert items[..n][..i] == items[..i];
      StoppedStays(s, items[..n], after, i);
    }
  }

  // ---------------------------------------------------------------- whatever the pages were

  predicate DistinctIds(txs: seq<Tx>) {
    forall i, j :: 0 <= i < j < |txs| ==> txs[i].txid != txs[j].txid
  }

  predicate Above(txs: seq<Tx>, after: int) {
    forall i :: 0 <= i < |txs| ==> txs[i].height > 0 && txs[i].height > after
  }

  ghost predicate Holds(s: Scan, after: int) {
    && DistinctIds(s.out) && Above(s.out, after)
    && (forall i :: 0 <= i < |s.out| ==> s.out[i].txid in s.seen)
  }

  lemma {:induction false} ItemsHold(s: Scan, items: seq<Tx>, after: int)
    requires Holds(s, after)
    ensures Holds(Items(s, items, after), after)
  {
    if items != [] {
      ItemsHold(s, items[..|items| - 1], after);
    }
  }

  lemma {:induction false} ReadHolds(answers: seq<Option<Page>>, after: int, k: nat, s: Scan)
    requires Holds(s, after)
    ensures var r := ReadFrom(answers, after, k, s);
            r.Some? ==> DistinctIds(r.value) && Above(r.value, after)
    decreases |answers| - k
  {
    if k < |answers| && answers[k].Some? {
      ItemsHold(s, answers[k].value.items, after);
      hide Items;
      ReadHolds(answers, after, k + 1, Items(s, answers[k].value.items, after));
    }
  }

  /** Whatever the source answers, a read returns only confirmed transactions above the cursor, each
      txid once. */
  lemma OnlyOnceAndAbove(answers: seq<Option<Page>>, after: int)
    ensures var r := ReadFrom(answers, after, 0, START);
            r.Some? ==> DistinctIds(r.value) && Above(r.value, after)
  {
    ReadHolds(answers, after, 0, START);
  }

  /** The pages name each transaction by its height. */
  ghost predicate OneHeight(answers: seq<Option<Page>>) {
    forall i, j, t, u ::
      (&& 0 <= i < |answers| && 0 <= j < |answers| && answers[i].Some? && answers[j].Some?
       && t in answers[i].value.items && u in answers[j].value.items && t.txid == u.txid)
      ==> t.height == u.height
  }

  /** Every id seen is that of an item above the cursor on an earlier page. */
  ghost predicate SeenAbove(answers: seq<Option<Page>>, after: int, k: nat, s: Scan) {
    forall id :: id in s.seen ==> exists j, t :: 0 <= j < k && j < |answers| && answers[j].Some? && t in answers[j].value.items && t.txid == id && t.height > after
  }

  lemma {:induction false} ItemsStop(s: Scan, items: seq<Tx>, after: int, low: Tx)
    requires low in items && 0 < low.height <= after && low.txid !in s.seen
    requires forall t :: t in items && t.txid == low.txid ==> t.height == low.height
    ensures Items(s, items, after).stopped
  {
    var n := |items| - 1;
    assert items == items[..n] + [items[n]];
    if low in items[..n] {
      ItemsStop(s, items[..n], after, low);
    } else if !Items(s, items[..n], after).stopped {
      NotSeenYet(s, items[..n], after, low);
    }
  }

  lemma {:induction false} NotSeenYet(s: Scan, items: seq<Tx>, after: int, low: Tx)
    requires low.txid !in s.seen && !Items(s, items, after).stopped && low.height <= after
    requires forall t :: t in items && t.txid == low.txid ==> t.height == low.height
    ensures low.txid !in Items(s, items, after).seen
  {
    if items != [] {
      var n := |items| - 1;
      assert items == items[..n] + [items[n]];
      NotSeenYet(s, items[..n], after, low);
    }
  }

  lemma {:induction false} ItemsSeenAbove(s: Scan, items: seq<Tx>, after: int)
    requires !Items(s, items, after).stopped
    ensures forall id :: id in Items(s, items, after).seen ==> id in s.seen || exists t :: t in items && t.txid == id && t.height > after
  {
    if items != [] {
      var n := |items| - 1;
      assert items == items[..n] + [items[n]];
      ItemsSeenAbove(s, items[..n], after);
    }
  }

  lemma LowIsNew(answers: seq<Option<Page>>, after: int, k: nat, s: Scan, low: Tx)
    requires OneHeight(answers) && SeenAbove(answers, after, k, s) && k < |answers| && answers[k].Some?
    requires low in answers[k].value.items && low.height <= after
    ensures low.txid !in s.seen
  {
  }

  lemma {:induction false} ReadStops(answers: seq<Option<Page>>, after: int, k: nat, s: Scan, last: nat, low: Tx)
    requires OneHeight(answers) && SeenAbove(answers, after, k, s) && !s.stopped
    requires k <= last < |answers| && forall j :: k <= j <= last ==> answers[j].Some?
    requires low in answers[last].value.items && 0 < low.height <= after
    ensures var r := ReadFrom(answers, after, k, s);
            r.Some? && r == ReadFrom(answers[..last + 1], after, k, s)
    decreases |answers| - k
  {
    hide Items, Reversed;
    var page := answers[k].value;
    var t := Items(s, page.items, after);
    assert answers[..last + 1][k] == answers[k];
    if k == last {
      LowIsNew(answers, after, k, s, low);
      ItemsStop(s, page.items, after, low);
    } else if !(t.stopped || PAGE_SIZE * (k + 1) >= page.total || page.items == []) {
      ItemsSeenAbove(s, page.items, after);
      assert SeenAbove(answers, after, k + 1, t);
      ReadStops(answers, after, k + 1, t, last, low);
    }
  }

  /** Once a page holds a confirmed transaction at or below the cursor, the read ends and no further page
      matters, nor whether it could have been had. */
  lemma StopsAtCursor(answers: seq<Option<Page>>, after: int, last: nat, low: Tx)
    requires OneHeight(answers) && last < |answers| && forall j :: 0 <= j <= last ==> answers[j].Some?
    requires low in answers[last].value.items && 0 < low.height <= after
    ensures var r := ReadFrom(answers, after, 0, START);
            r.Some? && r == ReadFrom(answers[..last + 1], after, 0, START)
  {
    ReadStops(answers, after, 0, START, last, low);
  }

  // ---------------------------------------------------------------- a list that only grows in front

  predicate NewestFirst(list: seq<Tx>) {
    forall i, j :: 0 <= i < j < |list| && list[i].height > 0 && list[j].height > 0 ==> list[i].height >= list[j].height
  }

  function PageOf(list: seq<Tx>, k: nat): Page {
    Page(|list|, list[Min(PAGE_SIZE * k, |list|)..Min(PAGE_SIZE * (k + 1), |list|)])
  }

  /** While paging goes on the list keeps ending in `tail`, its confirmed part at the start; the front
      may change but not get shorter. */
  ghost predicate Growing(answers: seq<Option<Page>>, fronts: seq<seq<Tx>>, tail: seq<Tx>) {
    && |fronts| == |answers|
    && (forall k :: 0 <= k < |answers| ==> NewestFirst(fronts[k] + tail))
    && (forall k :: 0 <= k < |answers| && answers[k].Some? ==> answers[k].value == PageOf(fronts[k] + tail, k))
    && (forall j, k :: 0 <= j < k < |answers| ==> |fronts[j]| <= |fronts[k]|)
    && (forall i :: 0 <= i < |tail| ==> tail[i].height > 0)
  }

  ghost predicate Has(txs: seq<Tx>, id: string) {
    exists i :: 0 <= i < |txs| && txs[i].txid == id
  }

  /** Seen and not stopped at means kept. */
  ghost predicate SeenIsKept(s: Scan) {
    forall id :: id in s.seen ==> Has(s.out, id)
  }

  lemma HasSnoc(txs: seq<Tx>, tx: Tx)
    ensures Has(txs + [tx], tx.txid)
    ensures forall id :: Has(txs, id) ==> Has(txs + [tx], id)
  {
    assert (txs + [tx])[|txs|] == tx;
    forall id | Has(txs, id) ensures Has(txs + [tx], id) {
      var i :| 0 <= i < |txs| && txs[i].txid == id;
      assert (txs + [tx])[i].txid == id;
    }
  }

  lemma {:induction false} ItemsKeepSeen(s: Scan, items: seq<Tx>, after: int)
    requires SeenIsKept(s) && !s.stopped
    ensures var t := Items(s, items, after);
            && (!t.stopped ==> SeenIsKept(t))
            && (forall id :: id in s.seen ==> Has(t.out, id))
  {
    hide Has;
    if items != [] {
      var n := |items| - 1;
      ItemsKeepSeen(s, items[..n], after);
      HasSnoc(Items(s, items[..n], after).out, items[n]);
    }
  }

  /** A confirmed item of a page is kept, or the scan had stopped by it at one no higher than the cursor. */
  lemma {:induction false} ItemKept(s: Scan, items: seq<Tx>, after: int, i: nat)
    requires SeenIsKept(s) && !s.stopped && i < |items| && NewestFirst(items)
    requires items[i].height > 0 && items[i].height > after
    ensures Has(Items(s, items, after).out, items[i].txid)
    decreases |items|
  {
    var n := |items| - 1;
    ItemsKeepSeen(s, items[..n], after);
    HasSnoc(Items(s, items[..n], after).out, items[n]);
    if i < n {
      assert items[..n][i] == items[i];
      ItemKept(s, items[..n], after, i);
    } else {
      StopsLow(s, items[..n], after, items[n].height);
    }
  }

  /** Before an item above the cursor, a newest-first page does not stop. */
  lemma {:induction false} StopsLow(s: Scan, items: seq<Tx>, after: int, height: int)
    requires !s.stopped && height > after
    requires forall i :: 0 <= i < |items| && items[i].height > 0 ==> items[i].height >= height
    ensures !Items(s, items, after).stopped
  {
    if items != [] {
      StopsLow(s, items[..|items| - 1], after, height);
    }
  }

  lemma HasReversed(txs: seq<Tx>, id: string)
    requires Has(txs, id)
    ensures Has(Reversed(txs), id)
  {
    var i :| 0 <= i < |txs| && txs[i].txid == id;
    assert Reversed(txs)[|txs| - 1 - i].txid == id;
  }

  lemma {:induction false} ItemsKeepOut(s: Scan, items: seq<Tx>, after: int, id: string)
    requires Has(s.out, id)
    ensures Has(Items(s, items, after).out, id)
  {
    if items != [] {
      var n := |items| - 1;
      ItemsKeepOut(s, items[..n], after, id);
      HasSnoc(Items(s, items[..n], after).out, items[n]);
    }
  }

  lemma {:induction false} ReadKeepsOut(answers: seq<Option<Page>>, after: int, k: nat, s: Scan, id: string)
    requires Has(s.out, id)
    ensures var r := ReadFrom(answers, after, k, s); r.Some? ==> Has(r.value, id)
    decreases |answers| - k
  {
    hide Has, Items;
    if k < |answers| && answers[k].Some? {
      var t := Items(s, answers[k].value.items, after);
      ItemsKeepOut(s, answers[k].value.items, after, id);
      HasReversed(t.out, id);
      ReadKeepsOut(answers, after, k + 1, t, id);
    }
  }

  lemma {:induction false} ReadReaches(answers: seq<Option<Page>>, fronts: seq<seq<Tx>>, tail: seq<Tx>, after: int, k: nat,
                                       s: Scan, i: nat)
    requires Growing(answers, fronts, tail) && SeenIsKept(s) && !s.stopped
    requires i < |tail| && tail[i].height > after
    requires k < |answers| ==> |fronts[k]| + i >= PAGE_SIZE * k
    ensures var r := ReadFrom(answers, after, k, s); r.Some? ==> Has(r.value, tail[i].txid)
    decreases |answers| - k
  {
    hide Has, Items, SeenIsKept, Reversed;
    if k < |answers| && answers[k].Some? {
      var list, at := fronts[k] + tail, |fronts[k]| + i;
      var items := PageOf(list, k).items;
      var t := Items(s, items, after);
      ItemsKeepSeen(s, items, after);
      PageInOrder(list, k);
      assert list[at] == tail[i];
      if at < PAGE_SIZE * (k + 1) {
        assert items[at - PAGE_SIZE * k] == tail[i];
        ItemKept(s, items, after, at - PAGE_SIZE * k);
        HasReversed(t.out, tail[i].txid);
        ReadKeepsOut(answers, after, k + 1, t, tail[i].txid);
      } else {
        assert |items| == PAGE_SIZE && forall j :: 0 <= j < PAGE_SIZE ==> items[j] == list[PAGE_SIZE * k + j];
        StopsLow(s, items, after, tail[i].height);
        ReadReaches(answers, fronts, tail, after, k + 1, t, i);
      }
    }
  }

  lemma PageInOrder(list: seq<Tx>, k: nat)
    requires NewestFirst(list)
    ensures NewestFirst(PageOf(list, k).items)
  {
  }

  /** Everything confirmed above the cursor when paging began is returned, however many new items
      push the pages along meanwhile. */
  lemma NothingMissed(answers: seq<Option<Page>>, fronts: seq<seq<Tx>>, tail: seq<Tx>, after: int, i: nat)
    requires Growing(answers, fronts, tail) && i < |tail| && tail[i].height > after
    ensures var r := ReadFrom(answers, after, 0, START); r.Some? ==> Has(r.value, tail[i].txid)
  {
    ReadReaches(answers, fronts, tail, after, 0, START, i);
  }

  // ---------------------------------------------------------------- a list that stands still

  function Wanted(list: seq<Tx>, after: int): seq<Tx> {
    if list == [] then []
    else
      var tx := list[|list| - 1];
      Wanted(list[..|list| - 1], after) + if tx.height > 0 && tx.height > after then [tx] else []
  }

  predicate ConfirmedOnce(list: seq<Tx>) {
    forall i, j :: 0 <= i < j < |list| && list[i].height > 0 && list[j].height > 0 ==> list[i].txid != list[j].txid
  }

  /** What the scan of a prefix knows: it kept what is wanted of it, and has seen exactly its confirmed
      ids unless it passed the cursor. */
  ghost predicate Tracks(s: Scan, list: seq<Tx>, after: int) {
    && s.out == Wanted(list, after)
    && (s.stopped ==> exists i :: 0 <= i < |list| && 0 < list[i].height <= after)
    && (!s.stopped ==> forall i :: 0 <= i < |list| && list[i].height > 0 ==> list[i].height > after)
    && (forall id :: id in s.seen ==> exists i :: 0 <= i < |list| && list[i].height > 0 && list[i].txid == id)
  }

  lemma ItemTracks(s: Scan, list: seq<Tx>, after: int, n: nat)
    requires n < |list| && NewestFirst(list) && ConfirmedOnce(list) && Tracks(s, list[..n], after)
    ensures Tracks(OneItem(s, list[n], after), list[..n + 1], after)
  {
    var front, tx := list[..n], list[n];
    var t := OneItem(s, tx, after);
    assert list[..n + 1][..n] == front;
    assert forall i :: 0 <= i < n ==> list[..n + 1][i] == front[i] == list[i];
    assert list[..n + 1][n] == tx;
    if s.stopped {
      var i :| 0 <= i < n && 0 < front[i].height <= after;
      assert list[..n + 1][i] == front[i];
    } else if tx.height > 0 {
      assert tx.txid !in s.seen;
    }
  }

  lemma {:induction false} PrefixTracks(list: seq<Tx>, after: int, n: nat)
    requires n <= |list| && NewestFirst(list) && ConfirmedOnce(list)
    ensures Tracks(Items(START, list[..n], after), list[..n], after)
  {
    if n > 0 {
      PrefixTracks(list, after, n - 1);
      ItemTracks(Items(START, list[..n - 1], after), list, after, n - 1);
      assert list[..n][..n - 1] == list[..n - 1];
    }
  }

  /** Once past the cursor nothing more is wanted. */
  lemma {:induction false} NoMoreWanted(list: seq<Tx>, after: int, n: nat)
    requires n <= |list| && NewestFirst(list) && exists i :: 0 <= i < n && 0 < list[i].height <= after
    ensures Wanted(list, after) == Wanted(list[..n], after)
  {
    if n < |list| {
      var i :| 0 <= i < n && 0 < list[i].height <= after;
      var m := |list| - 1;
      assert list[..m][i] == list[i] && list[..m][..n] == list[..n];
      NoMoreWanted(list[..m], after, n);
    } else {
      assert list[..n] == list;
    }
  }

  lemma {:induction false} ItemsAppend(s: Scan, a: seq<Tx>, b: seq<Tx>, after: int)
    ensures Items(s, a + b, after) == Items(Items(s, a, after), b, after)
  {
    if b == [] {
      assert a + b == a;
    } else {
      var m := |b| - 1;
      assert (a + b)[..|a| + m] == a + b[..m];
      ItemsAppend(s, a, b[..m], after);
    }
  }

  /** Enough pages of one list, all answered. */
  predicate Unchanging(answers: seq<Option<Page>>, list: seq<Tx>) {
    && PAGE_SIZE * |answers| > |list|
    && forall k :: 0 <= k < |answers| ==> answers[k] == Some(PageOf(list, k))
  }

  lemma {:induction false} ReadExact(answers: seq<Option<Page>>, list: seq<Tx>, after: int, k: nat)
    requires Unchanging(answers, list) && NewestFirst(list) && ConfirmedOnce(list)
    requires k < |answers| && PAGE_SIZE * k <= |list| && !Items(START, list[..PAGE_SIZE * k], after).stopped
    ensures ReadFrom(answers, after, k, Items(START, list[..PAGE_SIZE * k], after)) == Some(Reversed(Wanted(list, after)))
    decreases |answers| - k
  {
    hide Items, Wanted, NewestFirst, ConfirmedOnce, Reversed;
    var a, b := PAGE_SIZE * k, Min(PAGE_SIZE * (k + 1), |list|);
    var s, items := Items(START, list[..a], after), list[a..b];
    ItemsAppend(START, list[..a], items, after);
    assert list[..a] + items == list[..b];
    var t := Items(START, list[..b], after);
    PrefixTracks(list, after, b);
    if t.stopped {
      var i :| 0 <= i < |list[..b]| && 0 < list[..b][i].height <= after;
      assert list[i] == list[..b][i];
      NoMoreWanted(list, after, b);
    } else if b < |list| {
      ReadExact(answers, list, after, k + 1);
    } else {
      assert list[..b] == list;
    }
  }

  /** On a list that stands still, the read is exactly its confirmed transactions above the cursor,
      oldest first. */
  lemma ExactWhenStill(answers: seq<Option<Page>>, list: seq<Tx>, after: int)
    requires Unchanging(answers, list) && NewestFirst(list) && ConfirmedOnce(list)
    ensures ReadFrom(answers, after, 0, START) == Some(Reversed(Wanted(list, after)))
  {
    assert list[..0] == [];
    ReadExact(answers, list, after, 0);
  }

  // ---------------------------------------------------------------- what the entitlement scan is given

  lemma {:induction false} ItemsAreListed(s: Scan, items: seq<Tx>, after: int)
    ensures forall t :: t in Items(s, items, after).out ==> t in s.out || (t in items && t.height > 0)
  {
    if items != [] {
      ItemsAreListed(s, items[..|items| - 1], after);
    }
  }

  /** Every confirmed transaction on a page is one of `history`. */
  ghost predicate Lists(answers: seq<Option<Page>>, history: seq<Tx>) {
    forall k, t :: 0 <= k < |answers| && answers[k].Some? && t in answers[k].value.items && t.height > 0 ==> t in history
  }

  lemma {:induction false} ReadIsListed(answers: seq<Option<Page>>, history: seq<Tx>, after: int, k: nat, s: Scan)
    requires Lists(answers, history) && forall t :: t in s.out ==> t in history
    ensures var r := ReadFrom(answers, after, k, s); r.Some? ==> forall t :: t in r.value ==> t in history
    decreases |answers| - k
  {
    hide Items;
    if k < |answers| && answers[k].Some? {
      ItemsAreListed(s, answers[k].value.items, after);
      ReadIsListed(answers, history, after, k + 1, Items(s, answers[k].value.items, after));
    }
  }

  /** A read of a listing that lags the chain by less than the overlap is one the scan can rely on, also
      while new payments push the pages along. */
  lemma ReadIsReliable(answers: seq<Option<Page>>, fronts: seq<seq<Tx>>, tail: seq<Tx>, history: seq<Tx>, after: int, height: int)
    requires Growing(answers, fronts, tail) && Lists(answers, history) && Entitlement.ChainOrder(history)
    requires forall t :: t in history && t.height <= height - Entitlement.OVERLAP ==> t in tail
    ensures var r := ReadFrom(answers, after, 0, START);
            r.Some? ==> Entitlement.ReadShows(history, after, height, r.value)
  {
    hide ReadFrom, Growing, Lists;
    var r := ReadFrom(answers, after, 0, START);
    if r.Some? {
      ReadIsListed(answers, history, after, 0, START);
      OnlyOnceAndAbove(answers, after);
      forall t | t in history && after < t.height <= height - Entitlement.OVERLAP ensures t in r.value {
        var i :| 0 <= i < |tail| && tail[i] == t;
        NothingMissed(answers, fronts, tail, after, i);
        var j :| 0 <= j < |r.value| && r.value[j].txid == t.txid;
        assert r.value[j] in history;
        Entitlement.OneTx(history, r.value[j], t);
      }
    }
  }

  /** The listing of a chain up to height v: unconfirmed transactions, then the history backwards. */
  function Listing(mempool: seq<Tx>, history: seq<Tx>, v: int): seq<Tx> {
    mempool + Reversed(Entitlement.Slice(history, 0, v))
  }

  predicate Unconfirmed(txs: seq<Tx>) {
    forall i :: 0 <= i < |txs| ==> txs[i].height <= 0
  }

  lemma FrontOrdered(history: seq<Tx>)
    requires Entitlement.ChainOrder(history) && history != []
    ensures Entitlement.ChainOrder(history[..|history| - 1])
  {
  }

  lemma SnocOrdered(part: seq<Tx>, history: seq<Tx>)
    requires Entitlement.ChainOrder(history) && history != []
    requires Entitlement.ChainOrder(part) && forall t :: t in part ==> t in history[..|history| - 1]
    ensures Entitlement.ChainOrder(part + [history[|history| - 1]])
  {
    var front, t := history[..|history| - 1], history[|history| - 1];
    forall i | 0 <= i < |part| ensures part[i].height <= t.height && part[i].txid != t.txid {
      assert part[i] in part && part[i] in front;
      var j :| 0 <= j < |front| && front[j] == part[i];
      assert history[j] == part[i];
    }
  }

  lemma {:induction false} SliceOrdered(history: seq<Tx>, from: int, v: int)
    requires Entitlement.ChainOrder(history)
    ensures Entitlement.ChainOrder(Entitlement.Slice(history, from, v))
  {
    if history != [] {
      Entitlement.SliceSnoc(history, from, v);
      FrontOrdered(history);
      SliceOrdered(history[..|history| - 1], from, v);
      hide Entitlement.ChainOrder;
      Entitlement.SliceMembers(history[..|history| - 1], from, v);
      SnocOrdered(Entitlement.Slice(history[..|history| - 1], from, v), history);
    }
  }

  lemma ListingOrdered(mempool: seq<Tx>, history: seq<Tx>, v: int)
    requires Unconfirmed(mempool) && Entitlement.ChainOrder(history)
    ensures NewestFirst(Listing(mempool, history, v)) && ConfirmedOnce(Listing(mempool, history, v))
  {
    SliceOrdered(history, 0, v);
    hide Entitlement.Slice;
    var confirmed := Entitlement.Slice(history, 0, v);
    var list, m := Listing(mempool, history, v), |mempool|;
    forall i | 0 <= i < |list| && list[i].height > 0
      ensures i >= m && list[i] == confirmed[|confirmed| - 1 - (i - m)]
    {
    }
  }

  lemma {:induction false} WantedConcat(a: seq<Tx>, b: seq<Tx>, after: int)
    ensures Wanted(a + b, after) == Wanted(a, after) + Wanted(b, after)
  {
    if b == [] {
      assert a + b == a;
    } else {
      assert (a + b)[..|a + b| - 1] == a + b[..|b| - 1];
      WantedConcat(a, b[..|b| - 1], after);
    }
  }

  lemma {:induction false} NothingUnconfirmed(txs: seq<Tx>, after: int)
    requires Unconfirmed(txs)
    ensures Wanted(txs, after) == []
  {
    if txs != [] { NothingUnconfirmed(txs[..|txs| - 1], after); }
  }

  lemma ReversedSnoc(part: seq<Tx>, t: Tx)
    ensures Reversed(part + [t]) == [t] + Reversed(part)
  {
  }

  lemma WantedOfSnoc(part: seq<Tx>, t: Tx, after: int)
    ensures Wanted(Reversed(part + [t]), after)
         == if t.height > 0 && t.height > after then [t] + Wanted(Reversed(part), after) else Wanted(Reversed(part), after)
  {
    ReversedSnoc(part, t);
    WantedConcat([t], Reversed(part), after);
    assert [t][..0] == [] && Wanted([], after) == [];
    hide Reversed;
  }

  /** What is wanted of the history backwards is its slice above the cursor, backwards. */
  lemma {:induction false} WantedBackwards(history: seq<Tx>, after: int, v: int)
    requires after >= 0
    ensures Wanted(Reversed(Entitlement.Slice(history, 0, v)), after) == Reversed(Entitlement.Slice(history, after, v))
  {
    hide Wanted, Reversed, Entitlement.Slice;
    if history == [] {
      NothingWanted(after, v);
    } else {
      var n := |history| - 1;
      var front, t := history[..n], history[n];
      WantedBackwards(front, after, v);
      var before, wanted := Entitlement.Slice(front, 0, v), Entitlement.Slice(front, after, v);
      Entitlement.SliceSnoc(history, 0, v);
      Entitlement.SliceSnoc(history, after, v);
      WantedOfSnoc(before, t, after);
      ReversedSnoc(wanted, t);
      assert before + [] == before && wanted + [] == wanted;
    }
  }

  lemma NothingWanted(after: int, v: int)
    ensures Wanted(Reversed(Entitlement.Slice([], 0, v)), after) == Reversed(Entitlement.Slice([], after, v))
  {
    assert Reversed<Tx>([]) == [];
  }

  /** A read of a listing that stands still while it is paged, and lacks at most the overlap, is gapless:
      exactly the history above the cursor, in chain order. */
  lemma StillReadIsGapless(answers: seq<Option<Page>>, mempool: seq<Tx>, history: seq<Tx>, after: int, height: int, v: int)
    requires Unchanging(answers, Listing(mempool, history, v)) && Unconfirmed(mempool) && Entitlement.ChainOrder(history)
    requires after >= 0 && v >= height - Entitlement.OVERLAP
    ensures var r := ReadFrom(answers, after, 0, START);
            && r.Some? && Entitlement.ShowsTo(history, after, height, v, r.value)
            && Entitlement.ReadShows(history, after, height, r.value)
  {
    hide ReadFrom, Unchanging, Wanted, Entitlement.Slice, Entitlement.ChainOrder, NewestFirst, ConfirmedOnce, Unconfirmed;
    var backwards := Reversed(Entitlement.Slice(history, 0, v));
    ListingOrdered(mempool, history, v);
    ExactWhenStill(answers, Listing(mempool, history, v), after);
    WantedConcat(mempool, backwards, after);
    NothingUnconfirmed(mempool, after);
    WantedBackwards(history, after, v);
    var wanted := Entitlement.Slice(history, after, v);
    assert Reversed(Reversed(wanted)) == wanted && [] + Reversed(wanted) == Reversed(wanted);
    Entitlement.SliceMembers(history, after, v);
  }

  // ---------------------------------------------------------------- the order while the list grows

  predicate Descending(txs: seq<Tx>) {
    forall i, j :: 0 <= i < j < |txs| ==> txs[i].height >= txs[j].height
  }

  predicate OldestFirst(txs: seq<Tx>) {
    forall i, j :: 0 <= i < j < |txs| ==> txs[i].height <= txs[j].height
  }

  /** No unseen one of these items is higher than anything kept. */
  ghost predicate NoHigher(s: Scan, items: seq<Tx>) {
    forall o, t :: o in s.out && t in items && t.height > 0 && t.txid !in s.seen ==> o.height >= t.height
  }

  lemma PrefixNewest(items: seq<Tx>, n: nat)
    requires n <= |items| && NewestFirst(items)
    ensures NewestFirst(items[..n])
    ensures forall t :: t in items[..n] && t.height > 0 && n < |items| && items[n].height > 0 ==> t.height >= items[n].height
  {
  }

  lemma DescendingSnoc(txs: seq<Tx>, tx: Tx)
    requires Descending(txs) && forall t :: t in txs ==> t.height >= tx.height
    ensures Descending(txs + [tx])
  {
  }

  /** Such a page leaves what is kept in order, and all its confirmed items seen. */
  lemma {:induction false} ItemsInOrder(s: Scan, items: seq<Tx>, after: int)
    requires !s.stopped && NewestFirst(items) && Descending(s.out) && NoHigher(s, items)
    ensures var u := Items(s, items, after);
            && Descending(u.out) && s.seen <= u.seen
            && (!u.stopped ==> forall t :: t in items && t.height > 0 ==> t.txid in u.seen)
  {
    hide NewestFirst, Descending;
    if items != [] {
      var n := |items| - 1;
      var front, tx := items[..n], items[n];
      assert items == front + [tx];
      PrefixNewest(items, n);
      ItemsInOrder(s, front, after);
      ItemsAreListed(s, front, after);
      var u := Items(s, front, after);
      if !u.stopped && tx.height > after && tx.height > 0 && tx.txid !in u.seen {
        DescendingSnoc(u.out, tx);
      }
    }
  }

  /** The listing as it stood at each request: pages of it, newest first, and between two requests at
      most a page of it new and at most `changed[k]` items in front other than before. */
  ghost predicate Shifting(answers: seq<Option<Page>>, lists: seq<seq<Tx>>, changed: seq<nat>) {
    && |lists| == |changed| == |answers|
    && (forall k :: 0 <= k < |answers| ==> NewestFirst(lists[k]) && (answers[k].Some? ==> answers[k].value == PageOf(lists[k], k)))
    && (forall k :: 0 < k < |answers| ==> Shifted(lists[k - 1], lists[k], changed[k], k))
  }

  ghost predicate Shifted(before: seq<Tx>, list: seq<Tx>, changed: nat, k: nat) {
    && changed <= PAGE_SIZE * k && |list| <= |before| + PAGE_SIZE
    && changed <= |list| <= |before| + changed
    && forall i :: changed <= i < |list| ==> list[i] == before[i - (|list| - |before|)]
  }

  /** Before page k, of the listing as it stood at the request before. */
  ghost predicate Covers(s: Scan, before: seq<Tx>, k: nat) {
    && !s.stopped && Descending(s.out)
    && (forall o, i :: o in s.out && PAGE_SIZE * k <= i < |before| && before[i].height > 0 ==> o.height >= before[i].height)
    && (forall i :: k > 0 && PAGE_SIZE * (k - 1) <= i < PAGE_SIZE * k && i < |before| && before[i].height > 0 ==> before[i].txid in s.seen)
  }

  /** No confirmed item of the listing from i on is higher than anything kept. */
  ghost predicate Deeper(s: Scan, list: seq<Tx>, from: nat) {
    forall o, i :: o in s.out && from <= i < |list| && list[i].height > 0 ==> o.height >= list[i].height
  }

  lemma UnseenIsDeeper(s: Scan, before: seq<Tx>, list: seq<Tx>, changed: nat, k: nat)
    requires k > 0 && Covers(s, before, k) && Shifted(before, list, changed, k)
    ensures NoHigher(s, PageOf(list, k).items) && Deeper(s, list, PAGE_SIZE * (k + 1))
  {
    forall o, t | o in s.out && t in PageOf(list, k).items && t.height > 0 && t.txid !in s.seen ensures o.height >= t.height {
      var j :| 0 <= j < |PageOf(list, k).items| && PageOf(list, k).items[j] == t;
      var i := PAGE_SIZE * k + j;
      assert list[i] == t == before[i - (|list| - |before|)];
    }
  }

  lemma PageAt(list: seq<Tx>, k: nat)
    ensures forall t :: t in PageOf(list, k).items ==> exists i :: PAGE_SIZE * k <= i < PAGE_SIZE * (k + 1) && i < |list| && list[i] == t
    ensures forall i :: PAGE_SIZE * k <= i < PAGE_SIZE * (k + 1) && i < |list| ==> list[i] in PageOf(list, k).items
  {
    var items := PageOf(list, k).items;
    forall t | t in items ensures exists i :: PAGE_SIZE * k <= i < PAGE_SIZE * (k + 1) && i < |list| && list[i] == t {
      var j :| 0 <= j < |items| && items[j] == t;
      assert list[PAGE_SIZE * k + j] == t;
    }
    forall i | PAGE_SIZE * k <= i < PAGE_SIZE * (k + 1) && i < |list| ensures list[i] in items {
      assert items[i - PAGE_SIZE * k] == list[i];
    }
  }

  lemma PageCovers(s: Scan, list: seq<Tx>, after: int, k: nat)
    requires !s.stopped && Descending(s.out) && NewestFirst(list) && !Items(s, PageOf(list, k).items, after).stopped
    requires NoHigher(s, PageOf(list, k).items) && Deeper(s, list, PAGE_SIZE * (k + 1))
    ensures Covers(Items(s, PageOf(list, k).items, after), list, k + 1)
  {
    hide Items, Descending, PageOf, NoHigher;
    var items := PageOf(list, k).items;
    PageInOrder(list, k);
    PageAt(list, k);
    ItemsInOrder(s, items, after);
    ItemsAreListed(s, items, after);
  }

  lemma ReversedOrder(txs: seq<Tx>)
    requires Descending(txs)
    ensures OldestFirst(Reversed(txs))
  {
  }

  lemma {:induction false} ReadInOrder(answers: seq<Option<Page>>, lists: seq<seq<Tx>>, changed: seq<nat>, after: int, k: nat, s: Scan)
    requires Shifting(answers, lists, changed) && k <= |answers|
    requires if k == 0 then s == START else Covers(s, lists[k - 1], k)
    ensures var r := ReadFrom(answers, after, k, s); r.Some? ==> OldestFirst(r.value)
    decreases |answers| - k
  {
    hide Items, Covers, Shifted, Descending, NewestFirst, OldestFirst, PageOf, Deeper, NoHigher;
    if k < |answers| && answers[k].Some? {
      CoversIs(s, k, if k == 0 then [] else lists[k - 1]);
      if k > 0 {
        UnseenIsDeeper(s, lists[k - 1], lists[k], changed[k], k);
      } else {
        NothingKept(lists[0], k);
      }
      var u := Items(s, answers[k].value.items, after);
      PageInOrder(lists[k], k);
      ItemsInOrder(s, answers[k].value.items, after);
      ReversedOrder(u.out);
      if !u.stopped {
        PageCovers(s, lists[k], after, k);
        ReadInOrder(answers, lists, changed, after, k + 1, u);
      }
    }
  }

  lemma NothingKept(list: seq<Tx>, k: nat)
    ensures NoHigher(START, PageOf(list, k).items) && Deeper(START, list, PAGE_SIZE * (k + 1))
  {
  }

  lemma CoversIs(s: Scan, k: nat, before: seq<Tx>)
    requires if k == 0 then s == START else Covers(s, before, k)
    ensures !s.stopped && Descending(s.out)
  {
  }

  /** The read is oldest first if no more than a page of new items arrives between two requests. */
  lemma InOrder(answers: seq<Option<Page>>, lists: seq<seq<Tx>>, changed: seq<nat>, after: int)
    requires Shifting(answers, lists, changed)
    ensures var r := ReadFrom(answers, after, 0, START); r.Some? ==> OldestFirst(r.value)
  {
    ReadInOrder(answers, lists, changed, after, 0, START);
  }

  /** No payment of these items that is new to the read is above the cursor and above one kept before. */
  ghost predicate Fits(s: Scan, items: seq<Tx>, after: int) {
    forall o, t :: o in s.out && t in items && t.height > 0 && t.height > after && t.txid !in s.seen ==> o.height >= t.height
  }

  /** Every page read fits what was read before it. */
  ghost predicate AllFit(answers: seq<Option<Page>>, after: int, k: nat, s: Scan)
    decreases |answers| - k
  {
    k < |answers| && answers[k].Some? ==>
      var page := answers[k].value;
      var t := Items(s, page.items, after);
      Fits(s, page.items, after)
      && (t.stopped || PAGE_SIZE * (k + 1) >= page.total || page.items == [] || AllFit(answers, after, k + 1, t))
  }

  lemma {:induction false} ItemsSeen(s: Scan, items: seq<Tx>, after: int)
    ensures forall id :: id in Items(s, items, after).seen ==> id in s.seen || exists t :: t in items && t.height > 0 && t.txid == id
  {
    if items != [] {
      var n := |items| - 1;
      ItemsSeen(s, items[..n], after);
      assert items == items[..n] + [items[n]];
      forall id | id in Items(s, items, after).seen && id !in s.seen ensures exists t :: t in items && t.height > 0 && t.txid == id {
        if id != items[n].txid || id in Items(s, items[..n], after).seen {
          var t :| t in items[..n] && t.height > 0 && t.txid == id;
          assert t in items;
        }
      }
    }
  }

  lemma LowerBreaks(txs: seq<Tx>, o: Tx, tx: Tx)
    requires o in txs && o.height < tx.height
    ensures !Descending(txs + [tx])
  {
    var i :| 0 <= i < |txs| && txs[i] == o;
    assert (txs + [tx])[i] == o && (txs + [tx])[|txs|] == tx;
  }

  lemma StaysBroken(txs: seq<Tx>, more: seq<Tx>)
    requires !Descending(txs) && txs <= more
    ensures !Descending(more)
  {
    var i, j :| 0 <= i < j < |txs| && txs[i].height < txs[j].height;
    assert more[i] == txs[i] && more[j] == txs[j];
  }

  /** One more item, to a page read so far in order. */
  lemma NextFits(s: Scan, items: seq<Tx>, after: int)
    requires items != [] && !s.stopped && NewestFirst(items) && Descending(s.out)
    requires Fits(s, items[..|items| - 1], after) && Descending(Items(s, items[..|items| - 1], after).out)
    ensures Descending(Items(s, items, after).out) <==> Fits(s, items, after)
  {
    hide NewestFirst, Descending, Items;
    var n := |items| - 1;
    var front, tx := items[..n], items[n];
    assert items == front + [tx];
    PrefixNewest(items, n);
    ItemsAreListed(s, front, after);
    ItemsExtend(s, front, after);
    ItemsSeen(s, front, after);
    var u := Items(s, front, after);
    UnfoldItems(s, items, after);
    if tx.height > 0 && tx.height > after && tx.txid !in s.seen {
      if tx.txid in u.seen {
        var t :| t in front && t.height > 0 && t.txid == tx.txid;
      } else {
        NotStoppedBefore(s, front, after, tx.height);
        if o :| o in u.out && o.height < tx.height {
          LowerBreaks(u.out, o, tx);
          assert o in s.out;
        } else {
          DescendingSnoc(u.out, tx);
        }
      }
    } else {
      assert tx.txid in s.seen ==> tx.txid in u.seen by { SeenGrows(s, front, after); }
    }
  }

  lemma UnfoldItems(s: Scan, items: seq<Tx>, after: int)
    requires items != []
    ensures Items(s, items, after) == OneItem(Items(s, items[..|items| - 1], after), items[|items| - 1], after)
  {
  }

  lemma NotStoppedBefore(s: Scan, front: seq<Tx>, after: int, height: int)
    requires !s.stopped && height > after && forall t :: t in front && t.height > 0 ==> t.height >= height
    ensures !Items(s, front, after).stopped
  {
    forall i | 0 <= i < |front| && front[i].height > 0 ensures front[i].height >= height { assert front[i] in front; }
    StopsLow(s, front, after, height);
  }

  lemma {:induction false} SeenGrows(s: Scan, items: seq<Tx>, after: int)
    ensures s.seen <= Items(s, items, after).seen
  {
    if items != [] { SeenGrows(s, items[..|items| - 1], after); }
  }

  lemma {:induction false} ItemsInOrderIff(s: Scan, items: seq<Tx>, after: int)
    requires !s.stopped && NewestFirst(items) && Descending(s.out)
    ensures Descending(Items(s, items, after).out) <==> Fits(s, items, after)
  {
    hide NewestFirst, Descending, Items;
    if items == [] {
      assert Items(s, items, after) == s by { NoItems(s, after); }
    } else {
      var n := |items| - 1;
      PrefixNewest(items, n);
      ItemsInOrderIff(s, items[..n], after);
      if Fits(s, items[..n], after) {
        NextFits(s, items, after);
      } else {
        assert items == items[..n] + [items[n]];
        UnfoldItems(s, items, after);
        StaysBroken(Items(s, items[..n], after).out, Items(s, items, after).out);
      }
    }
  }

  lemma NoItems(s: Scan, after: int)
    ensures Items(s, [], after) == s
  {
  }

  lemma OrderIsReversed(out: seq<Tx>)
    ensures OldestFirst(Reversed(out)) <==> Descending(out)
  {
    if OldestFirst(Reversed(out)) {
      forall i, j | 0 <= i < j < |out| ensures out[i].height >= out[j].height {
        assert out[i] == Reversed(out)[|out| - 1 - i] && out[j] == Reversed(out)[|out| - 1 - j];
      }
    }
  }

  lemma {:induction false} ReadInOrderIff(answers: seq<Option<Page>>, after: int, k: nat, s: Scan)
    requires forall j :: 0 <= j < |answers| && answers[j].Some? ==> NewestFirst(answers[j].value.items)
    requires !s.stopped && Descending(s.out) && ReadFrom(answers, after, k, s).Some?
    ensures OldestFirst(ReadFrom(answers, after, k, s).value) <==> AllFit(answers, after, k, s)
    decreases |answers| - k
  {
    hide Items, NewestFirst, Descending, OldestFirst, Fits, Reversed;
    var page := answers[k].value;
    var u := Items(s, page.items, after);
    ItemsInOrderIff(s, page.items, after);
    OrderIsReversed(u.out);
    if !(u.stopped || PAGE_SIZE * (k + 1) >= page.total || page.items == []) {
      if Descending(u.out) {
        ReadInOrderIff(answers, after, k + 1, u);
      } else {
        ReadExtends(answers, after, k + 1, u);
        NotReversedOrder(u.out, ReadFrom(answers, after, k + 1, u).value);
      }
    }
  }

  /** On any newest-first pages: the read is oldest first exactly when no page it read holds a payment that
      is new to it, above the cursor, and above one it already had. */
  lemma InOrderIff(answers: seq<Option<Page>>, after: int)
    requires forall j :: 0 <= j < |answers| && answers[j].Some? ==> NewestFirst(answers[j].value.items)
    requires ReadFrom(answers, after, 0, START).Some?
    ensures OldestFirst(ReadFrom(answers, after, 0, START).value) <==> AllFit(answers, after, 0, START)
  {
    ReadInOrderIff(answers, after, 0, START);
  }

  /** A listing of n payments at height 11 over 51 at height 10. */
  function Flooded(n: nat): (list: seq<Tx>)
    ensures |list| == n + 51
    ensures forall i :: 0 <= i < n + 51 ==> list[i] == if i < n then Named('n', i, 11) else Named('o', i - n, 10)
  {
    seq(n + 51, i requires 0 <= i < n + 51 => if i < n then Named('n', i, 11) else Named('o', i - n, 10))
  }

  function Named(c: char, i: nat, height: int): (t: Tx)
    ensures |t.txid| == i + 1 && t.txid[0] == c && t.height == height
  {
    Tx(seq(i + 1, _ => c), height, 0, 0, [])
  }

  lemma {:induction false} ItemsExtend(s: Scan, items: seq<Tx>, after: int)
    ensures s.out <= Items(s, items, after).out
  {
    if items != [] {
      ItemsExtend(s, items[..|items| - 1], after);
    }
  }

  lemma {:induction false} ReadExtends(answers: seq<Option<Page>>, after: int, k: nat, s: Scan)
    ensures var r := ReadFrom(answers, after, k, s); r.Some? ==> s.out <= Reversed(r.value)
    decreases |answers| - k
  {
    hide Items;
    if k < |answers| && answers[k].Some? {
      ItemsExtend(s, answers[k].value.items, after);
      ReadExtends(answers, after, k + 1, Items(s, answers[k].value.items, after));
    }
  }

  lemma FloodIsListing(n: nat)
    ensures NewestFirst(Flooded(n)) && ConfirmedOnce(Flooded(n))
  {
    hide Flooded, Named;
    var list := Flooded(n);
    forall i, j | 0 <= i < j < n + 51 ensures list[i].txid != list[j].txid {
      assert list[i].txid[0] != list[j].txid[0] || |list[i].txid| != |list[j].txid|;
    }
  }

  lemma FloodShape()
    ensures |Flooded(0)| == 51 && |Flooded(51)| == 102 && Flooded(51)[51..] == Flooded(0)
    ensures forall t :: t in PageOf(Flooded(0), 0).items ==> |t.txid| > 0 && t.txid[0] == 'o' && t.height == 10
    ensures forall t :: t in PageOf(Flooded(51), 1).items ==> |t.txid| > 0 && t.height > 0 && (t.txid[0] == 'n' ==> t.height == 11)
    ensures PageOf(Flooded(51), 1).items[0].txid[0] == 'n'
  {
    hide Flooded, Named;
    forall t | t in PageOf(Flooded(0), 0).items ensures |t.txid| > 0 && t.txid[0] == 'o' && t.height == 10 {
      var i :| 0 <= i < 50 && Flooded(0)[i] == t;
    }
    forall t | t in PageOf(Flooded(51), 1).items ensures |t.txid| > 0 && t.height > 0 && (t.txid[0] == 'n' ==> t.height == 11) {
      var i :| 50 <= i < 100 && Flooded(51)[i] == t;
    }
    assert Flooded(51)[51..] == Flooded(0);
  }

  lemma NotReversedOrder(out: seq<Tx>, txs: seq<Tx>)
    requires !Descending(out) && out <= Reversed(txs)
    ensures !OldestFirst(txs)
  {
    var i, j :| 0 <= i < j < |out| && out[i].height < out[j].height;
    assert Reversed(txs)[i] == out[i] && Reversed(txs)[j] == out[j];
  }

  /** What the first page keeps stays in front of the first item of the second. */
  lemma FloodTurnsBack(first: seq<Tx>, second: seq<Tx>)
    requires first != [] && second != [] && NewestFirst(second)
    requires forall t :: t in first ==> |t.txid| > 0 && t.txid[0] == 'o' && t.height == 10
    requires forall t :: t in second ==> |t.txid| > 0 && t.height > 0 && (t.txid[0] == 'n' ==> t.height == 11)
    requires second[0].txid[0] == 'n'
    ensures var s := Items(START, first, 0);
            !s.stopped && !Descending(Items(s, second, 0).out)
  {
    hide NewestFirst;
    var s := Items(START, first, 0);
    StopsLow(START, first, 0, 10);
    ItemsKeepSeen(START, first, 0);
    ItemsAreListed(START, first, 0);
    assert [first[0]] + first[1..] == first;
    ItemsAppend(START, [first[0]], first[1..], 0);
    ItemsExtend(OneItem(START, first[0], 0), first[1..], 0);
    assert s.out[0] == first[0] && first[0] in first;
    var u := Items(s, second, 0);
    ItemsExtend(s, second, 0);
    assert second[0] in second;
    ItemKept(s, second, 0, 0);
    ItemsAreListed(s, second, 0);
    var i :| 0 <= i < |u.out| && u.out[i].txid == second[0].txid;
    assert u.out[i] in u.out && u.out[0] == first[0];
  }

  /** One payment more breaks the order: 51 new ones between the first request and the second. */
  lemma FloodBreaksOrder()
    ensures var lists := [Flooded(0), Flooded(51), Flooded(51)];
            var answers := seq(3, k requires 0 <= k < 3 => Some(PageOf(lists[k], k)));
            && (forall k :: 0 <= k < 3 ==> NewestFirst(lists[k]) && ConfirmedOnce(lists[k]))
            && lists[1][51..] == lists[0]
            && var r := ReadFrom(answers, 0, 0, START);
               r.Some? && !OldestFirst(r.value)
  {
    hide Items, Flooded, NewestFirst, ConfirmedOnce, Descending, OldestFirst, Reversed;
    FloodIsListing(0);
    FloodIsListing(51);
    var lists := [Flooded(0), Flooded(51), Flooded(51)];
    var answers := seq(3, k requires 0 <= k < 3 => Some(PageOf(lists[k], k)));
    FloodShape();
    var first, second := PageOf(lists[0], 0).items, PageOf(lists[1], 1).items;
    PageInOrder(lists[1], 1);
    FloodTurnsBack(first, second);
    var s := Items(START, first, 0);
    var u := Items(s, second, 0);
    var r := ReadFrom(answers, 0, 0, START);
    assert r == ReadFrom(answers, 0, 1, s);
    if !u.stopped {
      ReadExtends(answers, 0, 2, u);
    }
    NotReversedOrder(u.out, r.value);
  }
}
