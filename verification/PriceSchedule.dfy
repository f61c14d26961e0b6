/** The height-indexed FLUX price schedule (gateway/internal/price and its port
    bridge/src/price.ts). Prices are whole zats, heights unbounded integers. */
module PriceSchedule {
  import opened Common

  /** 72 h at 30 s a block: how long the previous price stays payable. */
  const GRACE_BLOCKS: int := 8640

  /** From height `from` on, a 30-day month costs `zats`. */
  datatype Entry = Entry(from: int, zats: int)

  datatype Schedule = Schedule(entries: seq<Entry>)
  {
    /** What Parse and Flat establish. */
    predicate Valid() {
      && |entries| > 0
      && entries[0].from == 0
      && (forall i :: 0 <= i < |entries| ==> entries[i].zats > 0)
      && (forall i, j :: 0 <= i < j < |entries| ==> entries[i].from < entries[j].from)
    }
  }

  /** Entry i is the one in force at height h (entry 0 also covers everything below it). */
  predicate InForce(s: Schedule, h: int, i: int) {
    && 0 <= i < |s.entries|
    && (i == 0 || s.entries[i].from <= h)
    && (forall j :: i < j < |s.entries| ==> h < s.entries[j].from)
  }

  function LastStarted(s: Schedule, h: int, i: nat): (r: nat)
    requires s.Valid() && i < |s.entries|
    requires forall j :: i < j < |s.entries| ==> h < s.entries[j].from
    ensures InForce(s, h, r)
  {
    if i > 0 && s.entries[i].from > h then LastStarted(s, h, i - 1) else i
  }

  /** The price in force at height h: what a new payment is quoted. */
  function At(s: Schedule, h: int): int
    requires s.Valid()
  {
    s.entries[LastStarted(s, h, |s.entries| - 1)].zats
  }

  lemma InForceUnique(s: Schedule, h: int, i: int)
    requires s.Valid() && InForce(s, h, i)
    ensures At(s, h) == s.entries[i].zats
  {
    assert InForce(s, h, LastStarted(s, h, |s.entries| - 1));
  }

  lemma ForceSpan(s: Schedule, i: nat, g: int)
    requires s.Valid() && i < |s.entries|
    requires (i == 0 || s.entries[i].from <= g) && (i + 1 < |s.entries| ==> g < s.entries[i + 1].from)
    ensures At(s, g) == s.entries[i].zats
  {
    InForceUnique(s, g, i);
  }

  /** The lowest price in force at any height of [lo, hi]. */
  function LowestOver(s: Schedule, lo: int, hi: int): (p: int)
    requires s.Valid() && lo <= hi
    decreases hi - lo
  {
    if lo == hi then At(s, hi)
    else
      var p := LowestOver(s, lo, hi - 1);
      if At(s, hi) < p then At(s, hi) else p
  }

  /** LowestOver is the minimum of At over the window: a lower bound that is reached. */
  lemma {:induction false} LowestIsMinimum(s: Schedule, lo: int, hi: int) returns (at: int)
    requires s.Valid() && lo <= hi
    ensures lo <= at <= hi && LowestOver(s, lo, hi) == At(s, at)
    ensures forall g :: lo <= g <= hi ==> LowestOver(s, lo, hi) <= At(s, g)
    decreases hi - lo
  {
    at := hi;
    if lo < hi {
      var a := LowestIsMinimum(s, lo, hi - 1);
      if At(s, a) <= At(s, hi) { at := a; }
    }
  }

  /** The price a payment mined at h is judged against. */
  function Effective(s: Schedule, h: int): int
    requires s.Valid()
  {
    LowestOver(s, h - GRACE_BLOCKS, h)
  }

  /** The highest effective price over [from, last]; at least `from` itself is looked at. */
  function HighestEffective(s: Schedule, from: int, last: int): (p: int)
    requires s.Valid()
    decreases last - from
  {
    if last <= from then Effective(s, from)
    else
      var p := HighestEffective(s, from, last - 1);
      if Effective(s, last) > p then Effective(s, last) else p
  }

  /** HighestEffective is the maximum of Effective over the range: an upper bound that is reached. */
  lemma {:induction false} HighestIsMaximum(s: Schedule, from: int, last: int) returns (at: int)
    requires s.Valid()
    ensures from <= at && (at <= last || at == from) && HighestEffective(s, from, last) == Effective(s, at)
    ensures forall h :: from <= h <= last ==> Effective(s, h) <= HighestEffective(s, from, last)
    decreases last - from
  {
    at := from;
    if from < last {
      var a := HighestIsMaximum(s, from, last - 1);
      at := if Effective(s, last) > Effective(s, a) then last else a;
    }
  }

  method Index(s: Schedule, h: int) returns (i: int)
    requires s.Valid()
    ensures InForce(s, h, i)
  {
    i := |s.entries| - 1;
    while i > 0 && s.entries[i].from > h
      invariant 0 <= i < |s.entries|
      invariant forall j :: i < j < |s.entries| ==> h < s.entries[j].from
    {
      i := i - 1;
    }
  }

  /** Walks entries backwards while they still overlap the grace window. */
  method ComputeEffective(s: Schedule, h: int) returns (p: int)
    requires s.Valid()
    ensures p == Effective(s, h)
  {
    hide At, LowestOver;
    var i := Index(s, h);
    p := s.entries[i].zats;
    var lo := h - GRACE_BLOCKS;
    var j := i - 1;
    ghost var at := h;
    forall g | (i == 0 || s.entries[i].from <= g) && g <= h ensures At(s, g) == p { ForceSpan(s, i, g); }
    assert h >= s.entries[i].from || i == 0;
    hide InForce;
    while j >= 0 && s.entries[j + 1].from > lo
      invariant -1 <= j < i
      invariant lo <= at <= h && p == At(s, at)
      invariant forall g :: s.entries[j + 1].from <= g <= h && lo <= g ==> p <= At(s, g)
      invariant j == -1 ==> forall g :: lo <= g <= h ==> p <= At(s, g)
    {
      ghost var end := s.entries[j + 1].from - 1;
      forall g | (j == 0 || s.entries[j].from <= g) && g <= end
        ensures At(s, g) == s.entries[j].zats
      {
        ForceSpan(s, j, g);
      }
      if s.entries[j].zats < p {
        p := s.entries[j].zats;
        at := end;
      }
      j := j - 1;
    }
    ghost var least := LowestIsMinimum(s, lo, h);
  }

  /** The spec of At agrees with the loop the source reads it from. */
  method ComputeAt(s: Schedule, h: int) returns (p: int)
    requires s.Valid()
    ensures p == At(s, h)
  {
    var i := Index(s, h);
    InForceUnique(s, h, i);
    p := s.entries[i].zats;
  }

  predicate Boundary(s: Schedule, h: int) {
    exists i :: 0 <= i < |s.entries| && (h == s.entries[i].from || h == s.entries[i].from + GRACE_BLOCKS)
  }

  lemma AtSteady(s: Schedule, h: int)
    requires s.Valid()
    requires forall i :: 0 <= i < |s.entries| ==> s.entries[i].from != h
    ensures At(s, h) == At(s, h - 1)
  {
    var i := LastStarted(s, h, |s.entries| - 1);
    InForceUnique(s, h - 1, i);
  }

  /** Effective only moves where an entry starts or a grace window ends. */
  lemma EffectiveSteady(s: Schedule, h: int)
    requires s.Valid() && !Boundary(s, h)
    ensures Effective(s, h) == Effective(s, h - 1)
  {
    hide At, LowestOver, Schedule.Valid;
    forall i | 0 <= i < |s.entries|
      ensures s.entries[i].from != h && s.entries[i].from != h - GRACE_BLOCKS
    {
      assert !(h == s.entries[i].from || h == s.entries[i].from + GRACE_BLOCKS);
    }
    AtSteady(s, h);
    AtSteady(s, h - GRACE_BLOCKS);
    var lo := h - GRACE_BLOCKS;
    var g := LowestIsMinimum(s, lo, h);
    var g' := LowestIsMinimum(s, lo - 1, h - 1);
    assert At(s, if g == h then h - 1 else g) >= Effective(s, h - 1);
    assert At(s, if g' == lo - 1 then lo else g') >= Effective(s, h);
  }

  lemma BoundariesDecide(s: Schedule, from: int, last: int, p: int)
    requires s.Valid() && from <= last
    requires Effective(s, from) <= p
    requires forall b :: from < b <= last && Boundary(s, b) ==> Effective(s, b) <= p
    ensures forall h :: from <= h <= last ==> Effective(s, h) <= p
    decreases last - from
  {
    if from < last {
      BoundariesDecide(s, from, last - 1, p);
      if !Boundary(s, last) {
        EffectiveSteady(s, last);
      }
    }
  }

  ghost predicate Under(s: Schedule, from: int, last: int, b: int, p: int)
    requires s.Valid()
  {
    from < b <= last ==> Effective(s, b) <= p
  }

  /** Neither boundary of entry i lies in the range with a higher effective price than p. */
  ghost predicate Tried(s: Schedule, from: int, last: int, i: int, p: int)
    requires s.Valid() && 0 <= i < |s.entries|
  {
    Under(s, from, last, s.entries[i].from, p) && Under(s, from, last, s.entries[i].from + GRACE_BLOCKS, p)
  }

  /** p is reached in the range and no boundary of the first k entries inside it beats p. */
  ghost predicate BestSoFar(s: Schedule, from: int, last: int, k: int, p: int)
    requires s.Valid() && 0 <= k <= |s.entries|
  {
    && Effective(s, from) <= p <= HighestEffective(s, from, last)
    && forall i :: 0 <= i < k ==> Tried(s, from, last, i, p)
  }

  /** Looks only at `from` and at the boundaries inside the range, yet finds the true maximum. */
  method MaxEffective(s: Schedule, from: int, last: int) returns (p: int)
    requires s.Valid()
    ensures p == HighestEffective(s, from, last)
  {
    hide Effective, HighestEffective, Tried;
    p := ComputeEffective(s, from);
    ghost var at := HighestIsMaximum(s, from, last);
    for k := 0 to |s.entries|
      invariant BestSoFar(s, from, last, k, p)
    {
      var q := TryBoundary(s, from, last, s.entries[k].from, k, p);
      p := TryBoundary(s, from, last, s.entries[k].from + GRACE_BLOCKS, k, q);
      BothTried(s, from, last, k, q, p);
    }
    AllBoundariesTried(s, from, last, p);
  }

  lemma BothTried(s: Schedule, from: int, last: int, k: nat, q: int, p: int)
    requires s.Valid() && k < |s.entries| && q <= p && BestSoFar(s, from, last, k, p)
    requires Under(s, from, last, s.entries[k].from, q) && Under(s, from, last, s.entries[k].from + GRACE_BLOCKS, p)
    ensures BestSoFar(s, from, last, k + 1, p)
  {
    hide Effective, HighestEffective;
  }

  /** One step of the inner loop of MaxEffective. */
  method TryBoundary(s: Schedule, from: int, last: int, b: int, ghost k: nat, p: int) returns (q: int)
    requires s.Valid() && k <= |s.entries| && BestSoFar(s, from, last, k, p)
    ensures p <= q && BestSoFar(s, from, last, k, q) && Under(s, from, last, b, q)
    ensures q == p || q == Effective(s, b)
  {
    hide Effective, HighestEffective;
    q := p;
    ghost var at := HighestIsMaximum(s, from, last);
    if b > from && b <= last {
      var e := ComputeEffective(s, b);
      if e > p { q := e; }
    }
    forall i | 0 <= i < k ensures Tried(s, from, last, i, q) {
      assert Tried(s, from, last, i, p);
    }
  }

  lemma HighestOf(s: Schedule, from: int, last: int, p: int)
    requires s.Valid() && Effective(s, from) <= p <= HighestEffective(s, from, last)
    requires forall h :: from <= h <= last ==> Effective(s, h) <= p
    ensures p == HighestEffective(s, from, last)
  {
    hide Effective;
    var at := HighestIsMaximum(s, from, last);
  }

  lemma AllBoundariesTried(s: Schedule, from: int, last: int, p: int)
    requires s.Valid() && BestSoFar(s, from, last, |s.entries|, p)
    ensures p == HighestEffective(s, from, last)
  {
    hide Effective, HighestEffective;
    if from <= last {
      forall b | from < b <= last && Boundary(s, b) ensures Effective(s, b) <= p {
        var i :| 0 <= i < |s.entries| && (b == s.entries[i].from || b == s.entries[i].from + GRACE_BLOCKS);
        assert Tried(s, from, last, i, p);
      }
      BoundariesDecide(s, from, last, p);
    }
    HighestOf(s, from, last, p);
  }

  /** s is prev with entries appended, all starting strictly above `after`. */
  predicate Extends(s: Schedule, prev: Schedule, after: int) {
    && |s.entries| >= |prev.entries|
    && (forall i :: 0 <= i < |prev.entries| ==> s.entries[i] == prev.entries[i])
    && (|s.entries| > |prev.entries| ==> s.entries[|prev.entries|].from > after)
  }

  predicate HasPrefix(s: Schedule, prev: Schedule) {
    Extends(s, prev, -1)
  }

  /** An appended entry never re-judges a height at or below `after`, grace included. */
  lemma ExtendsKeepsEffective(s: Schedule, prev: Schedule, after: int, h: int)
    requires s.Valid() && prev.Valid() && Extends(s, prev, after) && h <= after
    ensures Effective(s, h) == Effective(prev, h)
  {
    SameWindow(s, prev, after, h - GRACE_BLOCKS, h);
  }

  lemma SameAt(s: Schedule, prev: Schedule, after: int, h: int)
    requires s.Valid() && prev.Valid() && Extends(s, prev, after) && h <= after
    ensures At(s, h) == At(prev, h)
  {
    var i := LastStarted(prev, h, |prev.entries| - 1);
    assert InForce(s, h, i);
    InForceUnique(s, h, i);
  }

  lemma {:induction false} SameWindow(s: Schedule, prev: Schedule, after: int, lo: int, hi: int)
    requires s.Valid() && prev.Valid() && Extends(s, prev, after) && lo <= hi <= after
    ensures LowestOver(s, lo, hi) == LowestOver(prev, lo, hi)
    decreases hi - lo
  {
    SameAt(s, prev, after, hi);
    if lo < hi {
      SameWindow(s, prev, after, lo, hi - 1);
    }
  }

  /** The past up to `after` is judged alike by both schedules. */
  ghost predicate JudgesAlike(s: Schedule, prev: Schedule, after: int)
    requires s.Valid() && prev.Valid()
  {
    forall h :: h <= after ==> Effective(s, h) == Effective(prev, h)
  }

  /** Alike where entry i starts and where its grace window ends, if that is not above `after`. */
  predicate AlikeAround(s: Schedule, prev: Schedule, after: int, i: int)
    requires s.Valid() && prev.Valid() && 0 <= i < |s.entries|
  {
    var start, end := s.entries[i].from, s.entries[i].from + GRACE_BLOCKS;
    && (start <= after ==> Effective(s, start) == Effective(prev, start))
    && (end <= after ==> Effective(s, end) == Effective(prev, end))
  }

  /** Up to height 0 the first entry's price is the effective one. */
  lemma EarlyPrice(s: Schedule, h: int)
    requires s.Valid() && h <= 0
    ensures Effective(s, h) == s.entries[0].zats
  {
    hide At, LowestOver;
    forall g | g <= 0 ensures At(s, g) == s.entries[0].zats { ForceSpan(s, 0, g); }
    var least := LowestIsMinimum(s, h - GRACE_BLOCKS, h);
  }

  lemma {:induction false} AlikeUpTo(s: Schedule, prev: Schedule, after: int, h: int)
    requires s.Valid() && prev.Valid() && h <= after && s.entries[0].zats == prev.entries[0].zats
    requires forall i :: 0 <= i < |s.entries| ==> AlikeAround(s, prev, after, i)
    requires forall i :: 0 <= i < |prev.entries| ==> AlikeAround(prev, s, after, i)
    ensures Effective(s, h) == Effective(prev, h)
    decreases h
  {
    hide Effective;
    if h <= 0 {
      EarlyPrice(s, h);
      EarlyPrice(prev, h);
    } else if Boundary(s, h) {
      var i :| 0 <= i < |s.entries| && (h == s.entries[i].from || h == s.entries[i].from + GRACE_BLOCKS);
      assert AlikeAround(s, prev, after, i);
    } else if Boundary(prev, h) {
      var i :| 0 <= i < |prev.entries| && (h == prev.entries[i].from || h == prev.entries[i].from + GRACE_BLOCKS);
      assert AlikeAround(prev, s, after, i);
    } else {
      AlikeUpTo(s, prev, after, h - 1);
      EffectiveSteady(s, h);
      EffectiveSteady(prev, h);
    }
  }

  /** Exactly when any two schedules judge the past alike: their first prices agree, and the effective
      prices wherever an entry of either starts or its grace window ends. A finite test. */
  lemma JudgesAlikeIff(s: Schedule, prev: Schedule, after: int)
    requires s.Valid() && prev.Valid()
    ensures JudgesAlike(s, prev, after)
       <==> && s.entries[0].zats == prev.entries[0].zats
            && (forall i :: 0 <= i < |s.entries| ==> AlikeAround(s, prev, after, i))
            && (forall i :: 0 <= i < |prev.entries| ==> AlikeAround(prev, s, after, i))
  {
    hide Effective;
    if JudgesAlike(s, prev, after) {
      assert Effective(s, Min(after, 0)) == Effective(prev, Min(after, 0));
      EarlyPrice(s, Min(after, 0));
      EarlyPrice(prev, Min(after, 0));
    }
    if && s.entries[0].zats == prev.entries[0].zats
       && (forall i :: 0 <= i < |s.entries| ==> AlikeAround(s, prev, after, i))
       && (forall i :: 0 <= i < |prev.entries| ==> AlikeAround(prev, s, after, i))
    {
      forall h | h <= after ensures Effective(s, h) == Effective(prev, h) { AlikeUpTo(s, prev, after, h); }
    }
  }

  /** For an appended schedule its own entries are enough. */
  lemma AppendedJudgesAlikeIff(s: Schedule, prev: Schedule, after: int)
    requires s.Valid() && prev.Valid() && HasPrefix(s, prev)
    ensures JudgesAlike(s, prev, after) <==> forall i :: 0 <= i < |s.entries| ==> AlikeAround(s, prev, after, i)
  {
    hide Effective;
    JudgesAlikeIff(s, prev, after);
    if forall i :: 0 <= i < |s.entries| ==> AlikeAround(s, prev, after, i) {
      forall i | 0 <= i < |prev.entries| ensures AlikeAround(prev, s, after, i) {
        assert AlikeAround(s, prev, after, i) && prev.entries[i] == s.entries[i];
      }
    }
  }

  /** The guard of Extends is not necessary: a dearer entry that came late re-judges nothing while its
      grace window lasts. */
  lemma LateRiseJudgesAlike()
    ensures var prev, s := Schedule([Entry(0, 20)]), Schedule([Entry(0, 20), Entry(100, 30)]);
            s.Valid() && prev.Valid() && HasPrefix(s, prev) && !Extends(s, prev, 150) && JudgesAlike(s, prev, 150)
  {
    var prev, s := Schedule([Entry(0, 20)]), Schedule([Entry(0, 20), Entry(100, 30)]);
    forall i | 0 <= i < |s.entries| ensures AlikeAround(s, prev, 150, i) {
      if i == 0 {
        ExtendsKeepsEffective(s, prev, 99, 0);
      } else {
        CheapestIs(s, 100, 99, 20);
        CheapestIs(prev, 100, 99, 20);
      }
    }
    AppendedJudgesAlikeIff(s, prev, 150);
  }

  /** A price in force in the window that no entry undercuts is the effective one. */
  lemma CheapestIs(s: Schedule, h: int, at: int, p: int)
    requires s.Valid() && h - GRACE_BLOCKS <= at <= h
    requires InForce(s, at, 0) && s.entries[0].zats == p && forall i :: 0 <= i < |s.entries| ==> p <= s.entries[i].zats
    ensures Effective(s, h) == p
  {
    InForceUnique(s, at, 0);
    var least := LowestIsMinimum(s, h - GRACE_BLOCKS, h);
    assert At(s, least) == s.entries[LastStarted(s, least, |s.entries| - 1)].zats;
  }

  /** An appended entry at or below `after` that is cheaper than every price in its window re-judges its
      own starting height. */
  lemma LateDropRejudges(s: Schedule, prev: Schedule, after: int)
    requires s.Valid() && prev.Valid() && HasPrefix(s, prev) && |s.entries| > |prev.entries|
    requires s.entries[|prev.entries|].from <= after
    requires s.entries[|prev.entries|].zats < Effective(prev, s.entries[|prev.entries|].from)
    ensures !Extends(s, prev, after)
    ensures exists h :: h <= after && Effective(s, h) != Effective(prev, h)
  {
    var k := |prev.entries|;
    var h := s.entries[k].from;
    InForceUnique(s, h, k);
    var least := LowestIsMinimum(s, h - GRACE_BLOCKS, h);
    assert Effective(s, h) <= At(s, h) < Effective(prev, h);
  }
}
