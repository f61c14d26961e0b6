/** The interval arithmetic of clients/core-ts/src/split.ts: an interval list means a set of addresses. */
module Intervals {

  /** Inclusive. */
  datatype Interval = Interval(start: int, end: int)

  predicate Has(iv: Interval, x: int) {
    iv.start <= x <= iv.end
  }

  ghost predicate Covers(ivs: seq<Interval>, x: int) {
    exists i :: 0 <= i < |ivs| && Has(ivs[i], x)
  }

  ghost predicate SameAddresses(a: seq<Interval>, b: seq<Interval>) {
    forall x :: Covers(a, x) <==> Covers(b, x)
  }

  predicate NonEmpty(ivs: seq<Interval>) {
    forall i :: 0 <= i < |ivs| ==> ivs[i].start <= ivs[i].end
  }

  /** Sorted and disjoint, with a gap of at least one address between neighbours. */
  predicate Canonical(ivs: seq<Interval>) {
    && NonEmpty(ivs)
    && forall i, j :: 0 <= i < j < |ivs| ==> ivs[i].end + 1 < ivs[j].start
  }

  lemma CoversConcat(a: seq<Interval>, b: seq<Interval>, x: int)
    ensures Covers(a + b, x) <==> Covers(a, x) || Covers(b, x)
  {
    if Covers(a, x) {
      var i :| 0 <= i < |a| && Has(a[i], x);
      assert Has((a + b)[i], x);
    }
    if Covers(b, x) {
      var i :| 0 <= i < |b| && Has(b[i], x);
      assert Has((a + b)[|a| + i], x);
    }
    if Covers(a + b, x) {
      var i :| 0 <= i < |a + b| && Has((a + b)[i], x);
      if i < |a| { assert Has(a[i], x); } else { assert Has(b[i - |a|], x); }
    }
  }

  lemma CoversOne(iv: Interval, x: int)
    ensures Covers([iv], x) <==> Has(iv, x)
  {
    assert [iv][0] == iv;
  }

  /** A canonical list is determined by the addresses it covers. */
  lemma {:induction false} CanonicalUnique(a: seq<Interval>, b: seq<Interval>)
    requires Canonical(a) && Canonical(b) && SameAddresses(a, b)
    ensures a == b
    decreases |a|
  {
    if a == [] || b == [] {
      if a != [] { assert Has(a[0], a[0].start); assert Covers(a, a[0].start); }
      if b != [] { assert Has(b[0], b[0].start); assert Covers(b, b[0].start); }
    } else {
      FirstsAgree(a, b);
      FirstsAgree(b, a);
      var a', b' := a[1..], b[1..];
      forall x ensures Covers(a', x) <==> Covers(b', x) {
        TailCovers(a, x);
        TailCovers(b, x);
      }
      CanonicalUnique(a', b');
      assert a == [a[0]] + a' && b == [b[0]] + b';
    }
  }

  lemma FirstsAgree(a: seq<Interval>, b: seq<Interval>)
    requires a != [] && b != [] && Canonical(a) && Canonical(b) && SameAddresses(a, b)
    ensures b[0].start <= a[0].start && (a[0].start == b[0].start ==> a[0].end <= b[0].end)
  {
    assert Has(a[0], a[0].start) && Covers(a, a[0].start);
    var i :| 0 <= i < |b| && Has(b[i], a[0].start);
    var x := b[0].end + 1;
    assert !Covers(b, x) by {
      assert forall j :: 0 <= j < |b| ==> !Has(b[j], x);
    }
    assert Has(a[0], x) ==> Covers(a, x);
  }

  lemma TailCovers(a: seq<Interval>, x: int)
    requires a != [] && Canonical(a)
    ensures Covers(a[1..], x) <==> Covers(a, x) && x > a[0].end
  {
    if Covers(a[1..], x) {
      var i :| 0 <= i < |a[1..]| && Has(a[1..][i], x);
      assert Has(a[i + 1], x);
    }
    if Covers(a, x) && x > a[0].end {
      var i :| 0 <= i < |a| && Has(a[i], x);
      assert Has(a[1..][i - 1], x);
    }
  }

  // ---------------------------------------------------------------- merge

  predicate SortedByStart(s: seq<Interval>) {
    forall i, j :: 0 <= i < j < |s| ==> s[i].start <= s[j].start
  }

  /** Stable insertion, after every interval that does not start later. */
  function Insert(s: seq<Interval>, iv: Interval): seq<Interval> {
    if s == [] || s[|s| - 1].start <= iv.start then s + [iv]
    else Insert(s[..|s| - 1], iv) + [s[|s| - 1]]
  }

  /** What JavaScript's stable sort by start returns. */
  function Sorted(s: seq<Interval>): seq<Interval> {
    if s == [] then [] else Insert(Sorted(s[..|s| - 1]), s[|s| - 1])
  }

  lemma {:induction false} InsertProperties(s: seq<Interval>, iv: Interval)
    requires SortedByStart(s)
    ensures SortedByStart(Insert(s, iv))
    ensures forall x :: x in Insert(s, iv) <==> x in s || x == iv
  {
    if s != [] && s[|s| - 1].start > iv.start {
      var front, last := s[..|s| - 1], s[|s| - 1];
      assert s == front + [last];
      InsertProperties(front, iv);
      var r := Insert(front, iv);
      forall i | 0 <= i < |r| ensures r[i].start <= last.start {
        assert r[i] in r;
      }
      assert Insert(s, iv) == r + [last];
    }
  }

  lemma {:induction false} SortedProperties(s: seq<Interval>)
    ensures SortedByStart(Sorted(s))
    ensures forall x :: x in Sorted(s) <==> x in s
  {
    if s != [] {
      SortedProperties(s[..|s| - 1]);
      InsertProperties(Sorted(s[..|s| - 1]), s[|s| - 1]);
      assert s == s[..|s| - 1] + [s[|s| - 1]];
    }
  }

  /** Covering does not depend on order or repetition. */
  lemma CoversByContents(a: seq<Interval>, b: seq<Interval>)
    requires forall iv :: iv in a <==> iv in b
    ensures SameAddresses(a, b)
  {
    forall x ensures Covers(a, x) <==> Covers(b, x) {
      CoversMember(a, x);
      CoversMember(b, x);
    }
  }

  lemma CoversMember(a: seq<Interval>, x: int)
    ensures Covers(a, x) <==> exists iv :: iv in a && Has(iv, x)
  {
    if Covers(a, x) {
      var i :| 0 <= i < |a| && Has(a[i], x);
      assert a[i] in a;
    }
    if exists iv :: iv in a && Has(iv, x) {
      var iv :| iv in a && Has(iv, x);
      var i :| 0 <= i < |a| && a[i] == iv;
      assert Has(a[i], x);
    }
  }

  /** One turn of the merge loop. */
  function Absorb(out: seq<Interval>, iv: Interval): seq<Interval> {
    if out != [] && iv.start <= out[|out| - 1].end + 1 then
      if iv.end > out[|out| - 1].end
      then out[..|out| - 1] + [Interval(out[|out| - 1].start, iv.end)]
      else out
    else out + [iv]
  }

  function MergeSorted(s: seq<Interval>): seq<Interval> {
    if s == [] then [] else Absorb(MergeSorted(s[..|s| - 1]), s[|s| - 1])
  }

  /** The canonical list of the same addresses. */
  function Merged(ivs: seq<Interval>): seq<Interval> {
    MergeSorted(Sorted(ivs))
  }

  method MergeIntervals(ivs: seq<Interval>) returns (out: seq<Interval>)
    ensures out == Merged(ivs)
  {
    var sorted := Sorted(ivs);
    out := [];
    for k := 0 to |sorted|
      invariant out == MergeSorted(sorted[..k])
    {
      var iv := sorted[k];
      assert sorted[..k + 1][..k] == sorted[..k];
      if out != [] && iv.start <= out[|out| - 1].end + 1 {
        if iv.end > out[|out| - 1].end {
          out := out[|out| - 1 := Interval(out[|out| - 1].start, iv.end)];
        }
      } else {
        out := out + [iv];
      }
    }
    assert sorted[..|sorted|] == sorted;
  }

  lemma AbsorbKeeps(out: seq<Interval>, iv: Interval, x: int)
    requires Canonical(out) && iv.start <= iv.end
    requires out != [] ==> out[|out| - 1].start <= iv.start
    ensures Canonical(Absorb(out, iv))
    ensures Covers(Absorb(out, iv), x) <==> Covers(out, x) || Has(iv, x)
    ensures Absorb(out, iv) != [] && Absorb(out, iv)[|Absorb(out, iv)| - 1].start <= iv.start
  {
    CoversOne(iv, x);
    if out != [] && iv.start <= out[|out| - 1].end + 1 {
      var front, last := out[..|out| - 1], out[|out| - 1];
      assert out == front + [last];
      CoversConcat(front, [last], x);
      CoversOne(last, x);
      if iv.end > last.end {
        CoversConcat(front, [Interval(last.start, iv.end)], x);
        CoversOne(Interval(last.start, iv.end), x);
      } else {
        assert Has(iv, x) ==> Has(last, x);
      }
    } else {
      CoversConcat(out, [iv], x);
    }
  }

  lemma NothingMerged(x: int)
    ensures Canonical([]) && !Covers([], x)
  {
  }

  lemma SortedSnoc(s: seq<Interval>)
    requires SortedByStart(s) && NonEmpty(s) && s != []
    ensures var front, last := s[..|s| - 1], s[|s| - 1];
            && s == front + [last] && SortedByStart(front) && NonEmpty(front) && last.start <= last.end
            && (front != [] ==> front[|front| - 1].start <= last.start)
  {
  }

  lemma {:induction false} MergeSortedKeeps(s: seq<Interval>, x: int)
    requires SortedByStart(s) && NonEmpty(s)
    ensures Canonical(MergeSorted(s))
    ensures Covers(MergeSorted(s), x) <==> Covers(s, x)
    ensures s != [] ==> MergeSorted(s) != [] && MergeSorted(s)[|MergeSorted(s)| - 1].start <= s[|s| - 1].start
  {
    hide Canonical, Absorb, Covers, SortedByStart, NonEmpty;
    if s == [] {
      NothingMerged(x);
    } else {
      var front, last := s[..|s| - 1], s[|s| - 1];
      SortedSnoc(s);
      MergeSortedKeeps(front, x);
      AbsorbKeeps(MergeSorted(front), last, x);
      CoversConcat(front, [last], x);
      CoversOne(last, x);
    }
  }

  /** Merging yields the canonical list of exactly the addresses covered. */
  lemma MergedMeaning(ivs: seq<Interval>)
    requires NonEmpty(ivs)
    ensures Canonical(Merged(ivs)) && SameAddresses(Merged(ivs), ivs)
  {
    var s := Sorted(ivs);
    SortedProperties(ivs);
    assert NonEmpty(s) by {
      forall i | 0 <= i < |s| ensures s[i].start <= s[i].end { assert s[i] in ivs; }
    }
    CoversByContents(s, ivs);
    MergeSortedKeeps(s, 0);
    forall x ensures Covers(Merged(ivs), x) <==> Covers(ivs, x) {
      MergeSortedKeeps(s, x);
    }
  }

  // ---------------------------------------------------------------- subtract

  /** What is left of iv from `cursor` on after the cuts b. */
  function CutFrom(iv: Interval, b: seq<Interval>, cursor: int): seq<Interval> {
    if b == [] then
      if cursor <= iv.end then [Interval(cursor, iv.end)] else []
    else if b[0].end < cursor || b[0].start > iv.end then CutFrom(iv, b[1..], cursor)
    else
      var head := if b[0].start > cursor then [Interval(cursor, b[0].start - 1)] else [];
      if b[0].end + 1 > iv.end then head else head + CutFrom(iv, b[1..], b[0].end + 1)
  }

  function Subtracted(a: seq<Interval>, b: seq<Interval>): seq<Interval> {
    if a == [] then []
    else Subtracted(a[..|a| - 1], b) + CutFrom(a[|a| - 1], b, a[|a| - 1].start)
  }

  method SubtractIntervals(a: seq<Interval>, b: seq<Interval>) returns (out: seq<Interval>)
    ensures out == Subtracted(a, b)
  {
    out := [];
    for k := 0 to |a|
      invariant out == Subtracted(a[..k], b)
    {
      assert a[..k + 1][..k] == a[..k];
      var pieces := CutInterval(a[k], b);
      out := out + pieces;
    }
    assert a[..|a|] == a;
  }

  /** What is left of one interval. */
  method CutInterval(iv: Interval, b: seq<Interval>) returns (out: seq<Interval>)
    ensures out == CutFrom(iv, b, iv.start)
  {
    out := [];
    var cursor := iv.start;
    var m := 0;
    while m < |b|
      invariant 0 <= m <= |b|
      invariant out + CutFrom(iv, b[m..], cursor) == CutFrom(iv, b, iv.start)
      decreases |b| - m
    {
      var cut := b[m];
      assert b[m..][1..] == b[m + 1..];
      if cut.end < cursor || cut.start > iv.end {
        m := m + 1;
        continue;
      }
      if cut.start > cursor {
        out := out + [Interval(cursor, cut.start - 1)];
      }
      cursor := cut.end + 1;
      m := m + 1;
      if cursor > iv.end {
        CutPast(iv, b[m..], cursor);
        break;
      }
    }
    if cursor <= iv.end {
      assert m == |b| ==> b[m..] == [];
      out := out + [Interval(cursor, iv.end)];
    } else {
      CutPast(iv, b[m..], cursor);
    }
  }

  lemma {:induction false} CutPast(iv: Interval, b: seq<Interval>, cursor: int)
    requires cursor > iv.end
    ensures CutFrom(iv, b, cursor) == []
  {
    if b != [] { CutPast(iv, b[1..], cursor); }
  }

  lemma {:induction false} CutShape(iv: Interval, b: seq<Interval>, cursor: int)
    requires Canonical(b)
    ensures Canonical(CutFrom(iv, b, cursor))
    ensures forall i :: 0 <= i < |CutFrom(iv, b, cursor)| ==>
              cursor <= CutFrom(iv, b, cursor)[i].start && CutFrom(iv, b, cursor)[i].end <= iv.end
  {
    if b != [] {
      CutShape(iv, b[1..], cursor);
      CutShape(iv, b[1..], b[0].end + 1);
    }
  }

  lemma {:induction false} CutCovers(iv: Interval, b: seq<Interval>, cursor: int, x: int)
    requires Canonical(b)
    ensures Covers(CutFrom(iv, b, cursor), x) <==> cursor <= x <= iv.end && !Covers(b, x)
  {
    hide Covers, Canonical;
    NothingMerged(x);
    if b == [] {
      CoversOne(Interval(cursor, iv.end), x);
    } else {
      SplitFirst(b, x);
      TailCanonical(b);
      if b[0].end < cursor || b[0].start > iv.end {
        CutCovers(iv, b[1..], cursor, x);
      } else {
        var next := b[0].end + 1;
        var head := if b[0].start > cursor then [Interval(cursor, b[0].start - 1)] else [];
        var rest := if next > iv.end then [] else CutFrom(iv, b[1..], next);
        CutCovers(iv, b[1..], next, x);
        assert CutFrom(iv, b, cursor) == head + rest;
        CoversConcat(head, rest, x);
        CoversOne(Interval(cursor, b[0].start - 1), x);
        TailCovers(b, x);
      }
    }
  }

  lemma TailCanonical(b: seq<Interval>)
    requires Canonical(b) && b != []
    ensures Canonical(b[1..]) && b[0].start <= b[0].end
  {
  }

  /** Everything CutFrom leaves lies in [cursor, iv.end] and outside every cut, and nothing else does. */
  lemma CutMeaning(iv: Interval, b: seq<Interval>, cursor: int)
    requires Canonical(b)
    ensures Canonical(CutFrom(iv, b, cursor))
    ensures forall i :: 0 <= i < |CutFrom(iv, b, cursor)| ==>
              cursor <= CutFrom(iv, b, cursor)[i].start && CutFrom(iv, b, cursor)[i].end <= iv.end
    ensures forall x :: Covers(CutFrom(iv, b, cursor), x) <==> cursor <= x <= iv.end && !Covers(b, x)
  {
    hide CutFrom, Canonical, Covers;
    CutShape(iv, b, cursor);
    forall x ensures Covers(CutFrom(iv, b, cursor), x) <==> cursor <= x <= iv.end && !Covers(b, x) {
      CutCovers(iv, b, cursor, x);
    }
  }

  lemma SplitFirst(b: seq<Interval>, x: int)
    requires b != []
    ensures Covers(b, x) <==> Has(b[0], x) || Covers(b[1..], x)
  {
    assert b == [b[0]] + b[1..];
    CoversConcat([b[0]], b[1..], x);
    CoversOne(b[0], x);
  }

  lemma CanonicalConcat(l: seq<Interval>, r: seq<Interval>, start: int)
    requires Canonical(l) && Canonical(r)
    requires l != [] ==> l[|l| - 1].end + 1 < start
    requires forall j :: 0 <= j < |r| ==> start <= r[j].start
    ensures Canonical(l + r)
  {
    forall i, j | 0 <= i < |l| && 0 <= j < |r| ensures l[i].end + 1 < r[j].start {
      assert l[i].end <= l[|l| - 1].end;
    }
  }

  lemma {:induction false} SubtractedShape(a: seq<Interval>, b: seq<Interval>)
    requires Canonical(a) && Canonical(b)
    ensures Canonical(Subtracted(a, b))
    ensures Subtracted(a, b) != [] ==> a != [] && Subtracted(a, b)[|Subtracted(a, b)| - 1].end <= a[|a| - 1].end
  {
    hide CutFrom, Covers;
    if a != [] {
      var front, iv := a[..|a| - 1], a[|a| - 1];
      SubtractedShape(front, b);
      CutMeaning(iv, b, iv.start);
      CanonicalConcat(Subtracted(front, b), CutFrom(iv, b, iv.start), iv.start);
    }
  }

  lemma {:induction false} SubtractedCovers(a: seq<Interval>, b: seq<Interval>, x: int)
    requires Canonical(b)
    ensures Covers(Subtracted(a, b), x) <==> Covers(a, x) && !Covers(b, x)
  {
    hide CutFrom, Canonical, Covers;
    if a == [] {
      NothingMerged(x);
    } else {
      var front, iv := a[..|a| - 1], a[|a| - 1];
      SubtractedCovers(front, b, x);
      CutMeaning(iv, b, iv.start);
      CoversConcat(Subtracted(front, b), CutFrom(iv, b, iv.start), x);
      assert a == front + [iv];
      CoversConcat(front, [iv], x);
      CoversOne(iv, x);
    }
  }

  /** Subtraction is set difference, in canonical form. */
  lemma SubtractedMeaning(a: seq<Interval>, b: seq<Interval>)
    requires Canonical(a) && Canonical(b)
    ensures Canonical(Subtracted(a, b))
    ensures forall x :: Covers(Subtracted(a, b), x) <==> Covers(a, x) && !Covers(b, x)
    ensures Subtracted(a, b) != [] ==> a != [] && Subtracted(a, b)[|Subtracted(a, b)| - 1].end <= a[|a| - 1].end
  {
    hide Subtracted, Canonical, Covers;
    SubtractedShape(a, b);
    forall x ensures Covers(Subtracted(a, b), x) <==> Covers(a, x) && !Covers(b, x) {
      SubtractedCovers(a, b, x);
    }
  }
}
