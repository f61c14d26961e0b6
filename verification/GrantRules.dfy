/** What one payment is worth: the gateway's judgement of a transaction
    (gateway/internal/entitle/entitle.go) and the bridge's sizing of one (bridge/src/grants.ts). */
module GrantRules {
  import opened Arithmetic
  import opened Common
  import opened PriceSchedule

  // Times and durations are nanoseconds, as in Go's time package.
  const SECOND: int := 1_000_000_000
  const DAY: int := 86_400 * SECOND
  const MAX_PREPAID: int := 720 * DAY
  /** The zero time.Time, year 1: what an absent map entry reads as. */
  const ZERO_TIME: int := -62_135_596_800 * SECOND
  /** Blocks until an unmined settlement expires. */
  const EXPIRY_DELTA: int := 40
  /** The longest grant whose duration fits an int64 of nanoseconds. */
  const LONGEST_GRANT: int := 106_751

  // ---------------------------------------------------------------- days for an amount

  /** Days bought by `zats` at a monthly price of p zats; the 1e-9 FLUX epsilon is a tenth of a zat. */
  function DaysGranted(zats: nat, p: int): int
    requires p > 0
  {
    (30 * (10 * zats + 1)) / (10 * p)
  }

  /** The validity test, in the multiplied form the gateway uses. */
  predicate PaysADay(zats: nat, p: int) {
    30 * (10 * zats + 1) >= 10 * p
  }

  /** Zat payout for a day grant: ceil(p * days / 30). */
  function ZatsForDays(p: int, days: int): nat
    requires p > 0 && days >= 0
  {
    assert p * days >= 0;
    (p * days + 29) / 30
  }

  /** A payment passes the validity test exactly when it buys at least one day. */
  lemma PaysADayIffDays(zats: nat, p: int)
    requires p > 0
    ensures PaysADay(zats, p) <==> DaysGranted(zats, p) >= 1
  {
    FloorIs(30 * (10 * zats + 1), 10 * p, 1);
  }

  lemma CheaperBuysMore(zats: nat, p: int, q: int)
    requires 0 < q <= p
    ensures DaysGranted(zats, p) <= DaysGranted(zats, q)
  {
    var d := DaysGranted(zats, p);
    var x := 30 * (10 * zats + 1);
    FloorIs(x, 10 * p, d);
    FloorIs(x, 10 * p, 0);
    assert d * (10 * q) <= d * (10 * p);
    FloorIs(x, 10 * q, d);
  }

  /** Whole multiples of the price buy whole 30-day months, exactly from 4 zats a month up. */
  lemma MonthsBuyThirtyDays(p: int, months: nat)
    requires p > 0
    ensures DaysGranted(months * p, p) == 30 * months <==> p > 3
  {
    var x := 30 * (10 * (months * p) + 1);
    assert 30 * months * (10 * p) == 300 * (months * p) && (30 * months + 1) * (10 * p) == 300 * (months * p) + 10 * p;
    FloorIs(x, 10 * p, 30 * months);
    FloorIs(x, 10 * p, 30 * months + 1);
  }

  /** The rounding up left over from pricing `days` at p, in thirtieths of a zat: 0..29. */
  function Overshoot(p: int, days: int): int {
    (-(p * days)) % 30
  }

  /** The payout sized at p buys at least `days` at p, and no more exactly when the rounding plus
      the epsilon stays below the price. */
  lemma SizedDays(p: int, days: nat)
    requires p > 0
    ensures DaysGranted(ZatsForDays(p, days), p) >= days
    ensures DaysGranted(ZatsForDays(p, days), p) == days <==> Overshoot(p, days) + 3 < p
  {
    var t := p * days;
    var z := (t + 29) / 30;
    assert 30 * z == t + (-t) % 30;
    var x := 30 * (10 * z + 1);
    assert x == 10 * t + 10 * ((-t) % 30) + 30;
    assert days * (10 * p) == 10 * t;
    FloorIs(x, 10 * p, days);
    assert (days + 1) * (10 * p) == 10 * t + 10 * p;
    FloorIs(x, 10 * p, days + 1);
  }

  /** From 33 zats a month up the payout is worth exactly the bought days. */
  lemma SizedExactly(p: int, days: nat)
    requires p >= 33
    ensures DaysGranted(ZatsForDays(p, days), p) == days
  {
    SizedDays(p, days);
  }

  /** Below it the rounding shows: at 31 zats a month, one day's payout is worth two. */
  lemma SizedTooCheap()
    ensures DaysGranted(ZatsForDays(31, 1), 31) == 2
  {
  }

  /** A settlement sized over [tip, tip + 40] is worth at least the bought days wherever in that
      window it is mined, and exactly those days where the sizing price is the one in effect and is at
      least 33 zats. */
  lemma SettlementCoversDays(s: Schedule, tip: int, days: nat, h: int)
    requires s.Valid() && days >= 1 && tip <= h <= tip + EXPIRY_DELTA
    ensures HighestEffective(s, tip, tip + EXPIRY_DELTA) > 0 && Effective(s, h) > 0
    ensures var price := HighestEffective(s, tip, tip + EXPIRY_DELTA);
            var paid := ZatsForDays(price, days);
            && PaysADay(paid, Effective(s, h))
            && DaysGranted(paid, Effective(s, h)) >= days
            && (Effective(s, h) == price && price >= 33 ==> DaysGranted(paid, Effective(s, h)) == days)
  {
    var at := HighestIsMaximum(s, tip, tip + EXPIRY_DELTA);
    PositivePrice(s, at);
    PositivePrice(s, h);
    var price := HighestEffective(s, tip, tip + EXPIRY_DELTA);
    SizedDays(price, days);
    CheaperBuysMore(ZatsForDays(price, days), price, Effective(s, h));
    PaysADayIffDays(ZatsForDays(price, days), Effective(s, h));
    if price >= 33 { SizedExactly(price, days); }
  }

  lemma PositivePrice(s: Schedule, h: int)
    requires s.Valid()
    ensures Effective(s, h) > 0
  {
    var at := LowestIsMinimum(s, h - GRACE_BLOCKS, h);
  }

  // ---------------------------------------------------------------- stacking

  /** int64 wrap-around of a duration. */
  function Wrap64(ns: int): (r: int)
    ensures -0x8000_0000_0000_0000 <= r < 0x8000_0000_0000_0000
  {
    (ns + 0x8000_0000_0000_0000) % 0x1_0000_0000_0000_0000 - 0x8000_0000_0000_0000
  }

  /** The duration Go computes for `days` days. */
  function DaysNs(days: int): int {
    Wrap64(days * DAY)
  }

  /** A grant on top of an existing paid_until, capped at 720 days from `now`. */
  function Stack(current: int, days: int, now: int): int {
    var base := if current < now then now else current;
    var result := base + DaysNs(days);
    if result > now + MAX_PREPAID then now + MAX_PREPAID else result
  }

  datatype Credit = Credit(days: int, time: int)

  /** The grants of one code, applied oldest first. */
  function StackAll(x: int, gs: seq<Credit>): int {
    if gs == [] then x
    else Stack(StackAll(x, gs[..|gs| - 1]), gs[|gs| - 1].days, gs[|gs| - 1].time)
  }

  /** The map x -> min(max(x + shift, low), high). */
  datatype Clamp = Clamp(shift: int, low: int, high: int)
  {
    function Apply(x: int): int {
      Min(Max(x + shift, low), high)
    }
  }

  /** shift, low and high of a whole sequence of grants, computed without any paid_until. */
  function ClampOf(gs: seq<Credit>): Clamp
    requires gs != []
  {
    var g := gs[|gs| - 1];
    var d := DaysNs(g.days);
    if |gs| == 1 then Clamp(d, g.time + d, g.time + MAX_PREPAID)
    else
      var c := ClampOf(gs[..|gs| - 1]);
      Clamp(c.shift + d, Max(c.low, g.time) + d, Min(Max(c.high, g.time) + d, g.time + MAX_PREPAID))
  }

  lemma StackIsClamp(x: int, g: Credit)
    ensures var d := DaysNs(g.days);
            Stack(x, g.days, g.time) == Clamp(d, g.time + d, g.time + MAX_PREPAID).Apply(x)
  {
    hide DaysNs;
  }

  lemma ClampThenStack(x: int, c: Clamp, g: Credit)
    ensures Stack(c.Apply(x), g.days, g.time)
         == var d := DaysNs(g.days);
            Clamp(c.shift + d, Max(c.low, g.time) + d, Min(Max(c.high, g.time) + d, g.time + MAX_PREPAID)).Apply(x)
  {
    hide DaysNs;
  }

  /** Any sequence of grants acts on a paid_until as one clamp, whatever overflows on the way. */
  lemma {:induction false} StacksAsClamp(x: int, gs: seq<Credit>)
    requires gs != []
    ensures StackAll(x, gs) == ClampOf(gs).Apply(x)
  {
    hide DaysNs, Stack, Clamp.Apply;
    var front, g := gs[..|gs| - 1], gs[|gs| - 1];
    if front == [] {
      assert StackAll(x, front) == x;
      StackIsClamp(x, g);
    } else {
      StacksAsClamp(x, front);
      ClampThenStack(x, ClampOf(front), g);
    }
  }

  lemma ShortGrantFits(days: int)
    requires 0 <= days <= LONGEST_GRANT
    ensures DaysNs(days) == days * DAY
  {
  }

  /** A code loses time by a grant exactly when it was beyond the cap already, or the duration wraps
      negative and the result falls short: always for a code still paid, and for an expired one that
      expired later than `now` plus that duration. */
  lemma LosesTimeIff(current: int, days: int, now: int)
    ensures Stack(current, days, now) < current
       <==> || current > now + MAX_PREPAID
            || (DaysNs(days) < 0 && (now <= current || now + DaysNs(days) < current))
  {
  }

  /** 106,752 days, one more than int64 nanoseconds hold, wrap to minus 292 years: a prepaid code loses
      them, an expired code falls further back, and a first payment is expired when granted. */
  lemma LongGrantLosesTime(now: int)
    ensures Stack(now + DAY, LONGEST_GRANT + 1, now) < now
    ensures Stack(now - DAY, LONGEST_GRANT + 1, now) < now - DAY
    ensures now >= 0 ==> Stack(ZERO_TIME, LONGEST_GRANT + 1, now) < now
  {
  }

  predicate InOrder(gs: seq<Credit>) {
    forall i, j :: 0 <= i < j < |gs| ==> gs[i].time <= gs[j].time
  }

  /** Every grant's duration is non-negative after wrapping; LONGEST_GRANT days or fewer suffice. */
  predicate NoneWraps(gs: seq<Credit>) {
    forall i :: 0 <= i < |gs| ==> DaysNs(gs[i].days) >= 0
  }

  /** In time order, with no wrapped duration, stacking never takes time away and never passes the
      last payment plus 720 days. */
  lemma {:induction false} StackingNeverLowers(x: int, gs: seq<Credit>)
    requires gs != [] && InOrder(gs) && NoneWraps(gs)
    requires x <= gs[0].time + MAX_PREPAID
    ensures StackAll(x, gs[..|gs| - 1]) <= StackAll(x, gs) <= gs[|gs| - 1].time + MAX_PREPAID
    ensures x <= StackAll(x, gs)
  {
    var front := gs[..|gs| - 1];
    if front == [] {
      assert StackAll(x, front) == x;
    } else {
      StackingNeverLowers(x, front);
      assert front[|front| - 1].time <= gs[|gs| - 1].time;
    }
  }
}
