/** The per-address enroll rate limit of gateway/internal/api/api.go. Balances are whole nanoseconds of
    refill: one token is ENROLL_WINDOW of them, so the source's fractions are exact here. */
module EnrollLimit {
  import opened Common

  const ENROLL_WINDOW: int := 2_000_000_000
  const ENROLL_BURST: int := 8
  const FULL: int := ENROLL_BURST * ENROLL_WINDOW

  datatype Bucket = Bucket(credit: int, last: int)

  type Buckets = map<string, Bucket>

  /** The balance at now, capped at the burst. */
  function TokensAt(b: Bucket, now: int): int {
    if now <= b.last then b.credit else Min(FULL, b.credit + (now - b.last))
  }

  function Balance(m: Buckets, ip: string, now: int): int {
    if ip in m then TokensAt(m[ip], now) else FULL
  }

  predicate Allows(m: Buckets, ip: string, now: int) {
    Balance(m, ip, now) >= ENROLL_WINDOW
  }

  function AfterCall(m: Buckets, ip: string, now: int): Buckets {
    var t := Balance(m, ip, now);
    m[ip := Bucket(if t < ENROLL_WINDOW then t else t - ENROLL_WINDOW, now)]
  }

  function Swept(m: Buckets, now: int): Buckets {
    map ip | ip in m && TokensAt(m[ip], now) < FULL :: m[ip]
  }

  class Limiter {
    var enrollIP: Buckets

    constructor ()
      ensures enrollIP == map[]
    {
      enrollIP := map[];
    }

    /** A rejected call is free; an unseen address starts full. */
    method AllowEnroll(ip: string, now: int) returns (ok: bool)
      modifies this
      ensures ok == Allows(old(enrollIP), ip, now)
      ensures enrollIP == AfterCall(old(enrollIP), ip, now)
    {
      if ip !in enrollIP {
        enrollIP := enrollIP[ip := Bucket((ENROLL_BURST - 1) * ENROLL_WINDOW, now)];
        return true;
      }
      var tokens := TokensAt(enrollIP[ip], now);
      if tokens < ENROLL_WINDOW {
        enrollIP := enrollIP[ip := Bucket(tokens, now)];
        return false;
      }
      enrollIP := enrollIP[ip := Bucket(tokens - ENROLL_WINDOW, now)];
      return true;
    }

    method GcOnce(now: int)
      modifies this
      ensures enrollIP == Swept(old(enrollIP), now)
      ensures forall ip :: ip in enrollIP <==> ip in old(enrollIP) && Balance(old(enrollIP), ip, now) < FULL
      ensures forall ip :: ip in enrollIP ==> enrollIP[ip] == old(enrollIP)[ip]
    {
      var left := enrollIP.Keys;
      while left != {}
        invariant left <= enrollIP.Keys <= old(enrollIP).Keys
        invariant forall ip :: ip in enrollIP ==> enrollIP[ip] == old(enrollIP)[ip]
        invariant forall ip :: ip in old(enrollIP) ==> (ip in enrollIP <==> ip in left || TokensAt(old(enrollIP)[ip], now) < FULL)
        decreases left
      {
        var ip :| ip in left;
        left := left - {ip};
        if TokensAt(enrollIP[ip], now) >= FULL {
          enrollIP := enrollIP - {ip};
        }
      }
    }
  }

  // ---------------------------------------------------------------- traces

  datatype Event = Call(ip: string, at: int) | Sweep(at: int)

  function Run(m: Buckets, evs: seq<Event>): Buckets {
    if evs == [] then m
    else
      var before := Run(m, evs[..|evs| - 1]);
      match evs[|evs| - 1]
      case Call(ip, at) => AfterCall(before, ip, at)
      case Sweep(at) => Swept(before, at)
  }

  /** Calls read a monotonic clock. A sweep's tick may be stale, but never from the future. */
  predicate Ordered(evs: seq<Event>) {
    forall i, j :: 0 <= i < j < |evs| && evs[j].Call? ==> evs[i].at <= evs[j].at
  }

  /** How many of ip's calls are accepted. */
  function Accepted(m: Buckets, evs: seq<Event>, ip: string): nat {
    if evs == [] then 0
    else
      var n := |evs| - 1;
      Accepted(m, evs[..n], ip)
      + if evs[n].Call? && evs[n].ip == ip && Allows(Run(m, evs[..n]), ip, evs[n].at) then 1 else 0
  }

  predicate Sound(m: Buckets) {
    forall ip :: ip in m ==> 0 <= m[ip].credit <= FULL
  }

  lemma StepSound(m: Buckets, ev: Event)
    requires Sound(m)
    ensures Sound(Run(m, [ev]))
  {
    assert Run(m, [ev][..0]) == m;
  }

  lemma {:induction false} RunSound(m: Buckets, evs: seq<Event>)
    requires Sound(m)
    ensures Sound(Run(m, evs))
  {
    if evs != [] {
      var n := |evs| - 1;
      RunSound(m, evs[..n]);
      StepSound(Run(m, evs[..n]), evs[n]);
      assert [evs[n]][..0] == [];
    }
  }

  lemma {:induction false} RunSplits(m: Buckets, evs: seq<Event>, i: nat)
    requires i <= |evs|
    ensures Run(m, evs) == Run(Run(m, evs[..i]), evs[i..])
  {
    hide AfterCall, Swept;
    if i == |evs| {
      assert evs[..i] == evs && evs[i..] == [];
    } else {
      var n := |evs| - 1;
      RunSplits(m, evs[..n], i);
      assert evs[..n][..i] == evs[..i] && evs[..n][i..] == evs[i..][..|evs[i..]| - 1];
    }
  }

  /** Credit is spent a token at a time and earned no faster than time passes. */
  lemma {:induction false} Spending(m: Buckets, evs: seq<Event>, ip: string, from: int, until: int)
    requires Sound(m) && Ordered(evs) && from <= until
    requires forall i :: 0 <= i < |evs| ==> evs[i].at <= until && (evs[i].Call? ==> from <= evs[i].at)
    ensures ENROLL_WINDOW * Accepted(m, evs, ip) + Balance(Run(m, evs), ip, until) <= FULL + (until - from)
    decreases |evs|
  {
    if evs != [] {
      var n := |evs| - 1;
      var front, last := evs[..n], evs[n];
      RunSound(m, front);
      var now := if last.Call? then last.at else until;
      Spending(m, front, ip, from, now);
      OneEvent(Run(m, front), last, ip, now, until);
    }
  }

  lemma OneEvent(m: Buckets, ev: Event, ip: string, now: int, until: int)
    requires Sound(m) && ev.at <= now <= until && (ev.Call? ==> now == ev.at)
    ensures var after := if ev.Call? then AfterCall(m, ev.ip, ev.at) else Swept(m, ev.at);
            var spent := if ev.Call? && ev.ip == ip && Allows(m, ip, ev.at) then ENROLL_WINDOW else 0;
            spent + Balance(after, ip, until) <= Balance(m, ip, now) + (until - now)
  {
  }

  /** The rate limit: within any span, an address is accepted at most the burst plus one call per
      window, whatever else is called or swept meanwhile. */
  lemma RateLimited(evs: seq<Event>, i: nat, j: nat, ip: string, from: int, span: nat)
    requires i <= j <= |evs| && Ordered(evs)
    requires forall k :: i <= k < j ==> evs[k].at <= from + span && (evs[k].Call? ==> from <= evs[k].at)
    ensures Run(map[], evs[..j]) == Run(Run(map[], evs[..i]), evs[i..j])
    ensures Accepted(Run(map[], evs[..i]), evs[i..j], ip) <= ENROLL_BURST + span / ENROLL_WINDOW
  {
    hide AfterCall, Swept, Allows;
    RunSplits(map[], evs[..j], i);
    assert evs[..j][..i] == evs[..i] && evs[..j][i..] == evs[i..j];
    RunSound(map[], evs[..i]);
    RunSound(Run(map[], evs[..i]), evs[i..j]);
    Spending(Run(map[], evs[..i]), evs[i..j], ip, from, from + span);
    NonNegative(Run(Run(map[], evs[..i]), evs[i..j]), ip, from + span);
  }

  lemma NonNegative(m: Buckets, ip: string, now: int)
    requires Sound(m)
    ensures Balance(m, ip, now) >= 0
  {
  }

  // ---------------------------------------------------------------- exactly who is turned away

  /** How many of ip's calls from event i on are accepted. */
  function AcceptedFrom(evs: seq<Event>, i: nat, ip: string): int
    requires i <= |evs|
  {
    Accepted(map[], evs, ip) - Accepted(map[], evs[..i], ip)
  }

  predicate AcceptedCall(evs: seq<Event>, i: nat, ip: string)
    requires i < |evs|
  {
    evs[i].Call? && evs[i].ip == ip && Allows(Run(map[], evs[..i]), ip, evs[i].at)
  }

  /** From each accepted call of ip on, those accepted leave x of the burst and of what time has passed
      until t. */
  ghost predicate Leaves(evs: seq<Event>, ip: string, t: int, x: int) {
    forall i :: 0 <= i < |evs| && AcceptedCall(evs, i, ip) ==> ENROLL_WINDOW * AcceptedFrom(evs, i, ip) + x <= FULL + (t - evs[i].at)
  }

  lemma {:induction false} BalanceIff(evs: seq<Event>, ip: string, t: int, x: int)
    requires Ordered(evs) && x <= FULL && forall i :: 0 <= i < |evs| ==> evs[i].at <= t
    ensures Balance(Run(map[], evs), ip, t) >= x <==> Leaves(evs, ip, t, x)
    decreases |evs|
  {
    hide Balance, Allows, Swept, AfterCall;
    if evs == [] {
      NobodySeen(ip, t);
    } else {
      var n := |evs| - 1;
      var front, ev := evs[..n], evs[n];
      var before := Run(map[], front);
      RunSound(map[], front);
      RunUntil(front, if ev.Call? then ev.at else t);
      LeavesNext(evs, ip, t, x);
      if AcceptedCall(evs, n, ip) {
        var x' := x + ENROLL_WINDOW - (t - ev.at);
        AcceptedBalance(before, ip, ev.at, t);
        if x' <= FULL { BalanceIff(front, ip, ev.at, x'); }
      } else {
        OtherBalance(before, ev, ip, t);
        BalanceIff(front, ip, t, x);
      }
    }
  }

  lemma NobodySeen(ip: string, t: int)
    ensures Balance(map[], ip, t) == FULL
  {
  }

  lemma AcceptedBalance(m: Buckets, ip: string, at: int, t: int)
    requires Sound(m) && Allows(m, ip, at) && at <= t
    ensures Balance(AfterCall(m, ip, at), ip, t) == Min(FULL, Balance(m, ip, at) - ENROLL_WINDOW + (t - at))
    ensures Balance(m, ip, at) <= FULL
  {
  }

  /** A sweep, a rejected call and another address's call leave the balance as it is. */
  lemma OtherBalance(m: Buckets, ev: Event, ip: string, t: int)
    requires Sound(m) && ev.at <= t && (ev.Call? ==> Until(m, ev.at))
    requires !(ev.Call? && ev.ip == ip && Allows(m, ip, ev.at))
    ensures Balance(if ev.Call? then AfterCall(m, ev.ip, ev.at) else Swept(m, ev.at), ip, t) == Balance(m, ip, t)
  {
  }

  /** What one more event does to the counts. */
  lemma LeavesNext(evs: seq<Event>, ip: string, t: int, x: int)
    requires evs != []
    ensures AcceptedCall(evs, |evs| - 1, ip) ==>
              var n := |evs| - 1;
              var x' := x + ENROLL_WINDOW - (t - evs[n].at);
              (Leaves(evs, ip, t, x) <==> x' <= FULL && Leaves(evs[..n], ip, evs[n].at, x'))
    ensures !AcceptedCall(evs, |evs| - 1, ip) ==> (Leaves(evs, ip, t, x) <==> Leaves(evs[..|evs| - 1], ip, t, x))
  {
    hide Run, Allows;
    var n := |evs| - 1;
    var one := if AcceptedCall(evs, n, ip) then 1 else 0;
    forall i | 0 <= i < n
      ensures AcceptedCall(evs, i, ip) == AcceptedCall(evs[..n], i, ip)
           && AcceptedFrom(evs, i, ip) == AcceptedFrom(evs[..n], i, ip) + one
    {
      assert evs[..n][..i] == evs[..i] && evs[..n][i] == evs[i];
    }
    assert AcceptedFrom(evs, n, ip) == one;
    hide AcceptedFrom, AcceptedCall;
  }

  /** The rate limit is exactly what it says: a call is turned away if and only if, counted from some
      accepted call of that address, it would be one too many for the burst and one per window. */
  lemma AllowedIff(evs: seq<Event>, ip: string, t: int)
    requires Ordered(evs) && forall i :: 0 <= i < |evs| ==> evs[i].at <= t
    ensures Allows(Run(map[], evs), ip, t)
       <==> forall i :: 0 <= i < |evs| && AcceptedCall(evs, i, ip) ==>
              AcceptedFrom(evs, i, ip) + 1 <= ENROLL_BURST + (t - evs[i].at) / ENROLL_WINDOW
  {
    hide Run, Accepted, Balance;
    BalanceIff(evs, ip, t, ENROLL_WINDOW);
    forall i | 0 <= i < |evs| && AcceptedCall(evs, i, ip)
      ensures ENROLL_WINDOW * AcceptedFrom(evs, i, ip) + ENROLL_WINDOW <= FULL + (t - evs[i].at)
         <==> AcceptedFrom(evs, i, ip) + 1 <= ENROLL_BURST + (t - evs[i].at) / ENROLL_WINDOW
    {
    }
    hide AcceptedFrom, AcceptedCall;
  }

  /** So an address that has not called for a window is accepted, whatever it did before. */
  lemma WaitingHelps(evs: seq<Event>, ip: string, t: int)
    requires Ordered(evs) && forall i :: 0 <= i < |evs| ==> evs[i].at <= t && (evs[i].Call? && evs[i].ip == ip ==> evs[i].at <= t - ENROLL_WINDOW)
    ensures Allows(Run(map[], evs), ip, t)
  {
    RunSound(map[], evs);
    TouchedBy(evs, ip, t - ENROLL_WINDOW);
    hide Run;
  }

  lemma {:induction false} TouchedBy(evs: seq<Event>, ip: string, t: int)
    requires forall i :: 0 <= i < |evs| && evs[i].Call? && evs[i].ip == ip ==> evs[i].at <= t
    ensures ip in Run(map[], evs) ==> Run(map[], evs)[ip].last <= t
  {
    hide Balance;
    if evs != [] {
      TouchedBy(evs[..|evs| - 1], ip, t);
    }
  }

  // ---------------------------------------------------------------- what may be left out of a trace

  /** The events not marked for dropping. */
  function Kept(evs: seq<Event>, drop: seq<bool>): seq<Event>
    requires |drop| == |evs|
  {
    if evs == [] then []
    else
      var n := |evs| - 1;
      Kept(evs[..n], drop[..n]) + if drop[n] then [] else [evs[n]]
  }

  /** Only sweeps and rejected calls are marked. */
  predicate Droppable(evs: seq<Event>, drop: seq<bool>) {
    && |drop| == |evs|
    && forall i :: 0 <= i < |evs| && drop[i] && evs[i].Call? ==> !Allows(Run(map[], evs[..i]), evs[i].ip, evs[i].at)
  }

  /** From now on, nobody can tell the two tables apart. */
  ghost predicate Alike(a: Buckets, b: Buckets, now: int) {
    forall ip, t :: t >= now ==> Balance(a, ip, t) == Balance(b, ip, t)
  }

  lemma CallAlike(a: Buckets, b: Buckets, ip: string, now: int, since: int)
    requires Alike(a, b, since) && since <= now
    ensures Alike(AfterCall(a, ip, now), AfterCall(b, ip, now), now)
  {
    assert Balance(a, ip, now) == Balance(b, ip, now);
    forall k, t | t >= now
      ensures Balance(AfterCall(a, ip, now), k, t) == Balance(AfterCall(b, ip, now), k, t)
    {
      assert Balance(a, k, t) == Balance(b, k, t);
    }
  }

  lemma RejectedAlike(a: Buckets, ip: string, now: int)
    requires Sound(a) && !Allows(a, ip, now) && (ip in a ==> a[ip].last <= now)
    ensures Alike(AfterCall(a, ip, now), a, now)
  {
  }

  lemma SweptAlike(a: Buckets, now: int)
    requires Sound(a)
    ensures Alike(Swept(a, now), a, now)
  {
  }

  /** No bucket was touched after now. */
  predicate Until(m: Buckets, now: int) {
    forall ip :: ip in m ==> m[ip].last <= now
  }

  lemma {:induction false} RunUntil(evs: seq<Event>, now: int)
    requires forall i :: 0 <= i < |evs| && evs[i].Call? ==> evs[i].at <= now
    ensures Until(Run(map[], evs), now)
  {
    if evs != [] {
      RunUntil(evs[..|evs| - 1], now);
    }
  }

  /** Dropping any sweeps and any rejected calls leaves a table that answers alike ever after. */
  lemma {:induction false} DroppingIsInvisible(evs: seq<Event>, drop: seq<bool>, now: int)
    requires Ordered(evs) && Droppable(evs, drop)
    requires forall i :: 0 <= i < |evs| ==> evs[i].at <= now
    ensures Alike(Run(map[], evs), Run(map[], Kept(evs, drop)), now)
    decreases |evs|
  {
    hide AfterCall, Swept, Balance;
    if evs != [] {
      var n := |evs| - 1;
      var front, last := evs[..n], evs[n];
      assert forall i :: 0 <= i < n ==> front[..i] == evs[..i];
      var since := if last.Call? then last.at else now;
      DroppingIsInvisible(front, drop[..n], since);
      var a, b := Run(map[], front), Run(map[], Kept(front, drop[..n]));
      RunSound(map[], front);
      RunSound(map[], Kept(front, drop[..n]));
      var a2, b2 := Run(map[], evs), Run(map[], Kept(evs, drop));
      RunKept(evs, drop);
      match last {
        case Call(ip, at) =>
          if drop[n] {
            RunUntil(front, at);
            RejectedAlike(a, ip, at);
            Chain(a2, a, b, b, at, now);
          } else {
            CallAlike(a, b, ip, at, since);
            Chain(a2, b2, b2, b2, at, now);
          }
        case Sweep(at) =>
          SweptAlike(a, at);
          SweptAlike(b, at);
          Later(a2, a, at, now);
          Later(b2, b, at, now);
          Chain(a2, a, b, b2, now, now);
      }
    }
  }

  lemma RunKept(evs: seq<Event>, drop: seq<bool>)
    requires evs != [] && |drop| == |evs|
    ensures var n := |evs| - 1;
            var b := Run(map[], Kept(evs[..n], drop[..n]));
            Run(map[], Kept(evs, drop)) == if drop[n] then b else match evs[n] case Call(ip, at) => AfterCall(b, ip, at) case Sweep(at) => Swept(b, at)
  {
    hide AfterCall, Swept;
    var n := |evs| - 1;
    var front, all := Kept(evs[..n], drop[..n]), Kept(evs, drop);
    if drop[n] {
      assert all == front;
    } else {
      assert all[..|all| - 1] == front;
    }
  }

  lemma Later(a: Buckets, b: Buckets, at: int, now: int)
    requires at <= now && (Alike(a, b, at) || a == b)
    ensures Alike(a, b, now)
  {
    hide Balance;
  }

  lemma Chain(a: Buckets, b: Buckets, c: Buckets, d: Buckets, at: int, now: int)
    requires at <= now && Alike(a, b, at) && Alike(b, c, at) && (c == d || Alike(d, c, at))
    ensures Alike(a, d, now)
  {
    hide Balance;
    forall ip, t | t >= now ensures Balance(a, ip, t) == Balance(d, ip, t) {
      assert Balance(a, ip, t) == Balance(b, ip, t) == Balance(c, ip, t);
    }
  }

  /** So no kept call gets another answer. */
  lemma SameAnswers(evs: seq<Event>, drop: seq<bool>, i: nat)
    requires Ordered(evs) && Droppable(evs, drop) && i < |evs| && evs[i].Call?
    ensures Allows(Run(map[], evs[..i]), evs[i].ip, evs[i].at)
        <==> Allows(Run(map[], Kept(evs[..i], drop[..i])), evs[i].ip, evs[i].at)
  {
    hide Run, Balance, Kept;
    assert forall k :: 0 <= k < i ==> evs[..i][..k] == evs[..k];
    DroppingIsInvisible(evs[..i], drop[..i], evs[i].at);
  }
}
