/** What every run of enrollments, tier syncs and evictions keeps. */
module EnrollmentRuns {
  import opened Common
  import opened PeerTables
  import opened Enrollment

  ghost predicate SubTable(t: Table, main: Table) {
    Inverse(t) && forall k :: k in t.byKey ==> k in main.byKey && t.byKey[k] == main.byKey[k]
  }

  ghost predicate MirrorFits(m: Mirror, main: Table) {
    m.peers.Some? ==> SubTable(m.peers.value, main)
  }

  /** The main maps are inverse, and every mirrored device holds part of the main table. */
  ghost predicate Inv(w: World) {
    && Inverse(w.main) && HostInRange(w.nextHost)
    && forall i :: 0 <= i < |w.mirrors| ==> MirrorFits(w.mirrors[i], w.main)
  }

  datatype Event =
    | EnrollCall(ask: Ask)
    | SyncCall(key: string, premium: bool, now: int, fails: seq<bool>)
    | EvictCall(key: string)

  /** A refusal is said for every mirror; calls saying too few do nothing. */
  function Step(caps: Caps, w: World, ev: Event): World {
    match ev
    case EnrollCall(ask) => if |ask.fails| == |w.mirrors| then Enroll(caps, w, ask).world else w
    case SyncCall(key, premium, now, fails) => if |fails| == |w.mirrors| then Synced(w, key, premium, now, fails) else w
    case EvictCall(key) => Evicted(w, key)
  }

  function Run(caps: Caps, w: World, evs: seq<Event>): World {
    if evs == [] then w else Step(caps, Run(caps, w, evs[..|evs| - 1]), evs[|evs| - 1])
  }

  // ---------------------------------------------------------------- addresses

  /** A new peer gets a free address of the pool; an enrolled one keeps its own. */
  lemma AddressGiven(caps: Caps, w: World, ask: Ask)
    requires |ask.fails| == |w.mirrors| && HostInRange(w.nextHost)
    requires Enroll(caps, w, ask).reply.Enrolled?
    ensures var addr := Enroll(caps, w, ask).reply.addr;
            if ask.key in w.main.byKey then addr == w.main.byKey[ask.key]
            else addr !in w.main.byAddr && addr >= NET && HostInRange(addr - NET) && Usable(addr - NET) && addr != AddrOf(1)
  {
    hide Mirrored, FirstRefusal, Added, Removed;
    WalkFindsFree(w.main.byAddr, w.nextHost, TRIES);
    hide Walk;
  }

  /** Within its caps, a gateway whose devices answer turns a key away exactly when the key is new
      and all 65,023 addresses are held. */
  lemma RefusedIff(caps: Caps, w: World, ask: Ask)
    requires |ask.fails| == |w.mirrors| && HostInRange(w.nextHost)
    requires ask.total < caps.maxTotal && ask.free < caps.maxFree && !ask.mainFails
    requires forall i :: 0 <= i < |ask.fails| ==> !ask.fails[i]
    ensures Enroll(caps, w, ask).reply.Enrolled? <==> ask.key in w.main.byKey || !AllHeld(w.main.byAddr)
    ensures !Enroll(caps, w, ask).reply.Enrolled? ==> |w.main.byAddr| >= 65023
  {
    hide Mirrored, Added, Removed, FirstRefusal;
    WalkFailsIff(w.main.byAddr, w.nextHost);
    PoolSize(w.main.byAddr);
    var stop := FirstRefusal(w.mirrors, ask.premium, ask.fails, 0);
    assert stop == |w.mirrors|;
    hide Walk, AllHeld;
  }

  // ---------------------------------------------------------------- one step

  /** An address a mirror holds, the main device holds for the same peer. */
  lemma SubTableAddrs(t: Table, main: Table, addr: Addr)
    requires SubTable(t, main) && Inverse(main)
    ensures addr in t.byAddr ==> addr in main.byAddr && main.byAddr[addr] == t.byAddr[addr]
  {
    if addr in t.byAddr {
      assert t.byAddr[addr] in main.byKey;
    }
  }

  lemma FitsAdded(m: Mirror, main: Table, premium: bool, key: string, addr: Addr, now: int)
    requires Inverse(main) && MirrorFits(m, main)
    requires if key in main.byKey then main.byKey[key] == addr else addr !in main.byAddr
    ensures MirrorFits(WithPeer(m, premium, key, addr, now), Added(main, key, addr, now))
    ensures MirrorFits(m, Added(main, key, addr, now))
  {
    if m.peers.Some? {
      var t := m.peers.value;
      SubTableAddrs(t, main, addr);
      AddKeepsInverse(t, key, addr, now);
    }
  }

  /** A mirror rolled back is the mirror it was. */
  lemma RollsBack(m: Mirror, main: Table, premium: bool, key: string, addr: Addr, now: int)
    requires Inverse(main) && MirrorFits(m, main) && key !in main.byKey && addr !in main.byAddr
    ensures WithoutPeer(WithPeer(m, premium, key, addr, now), premium, key) == m
  {
    if m.peers.Some? {
      var t := m.peers.value;
      SubTableAddrs(t, main, addr);
      RemoveUndoesAdd(t, key, addr, now);
    }
  }

  /** A new peer the gateway could not fully register leaves every device exactly as it was. */
  lemma FailedEnrollLeavesNoTrace(caps: Caps, w: World, ask: Ask)
    requires |ask.fails| == |w.mirrors| && Inv(w)
    requires ask.key !in w.main.byKey && !Enroll(caps, w, ask).reply.Enrolled?
    ensures Enroll(caps, w, ask).world == w.(nextHost := Enroll(caps, w, ask).world.nextHost)
  {
    hide Added, Removed, Inverse, WithPeer, WithoutPeer, FirstRefusal;
    var found := Walk(w.main.byAddr, w.nextHost, TRIES).0;
    WalkFindsFree(w.main.byAddr, w.nextHost, TRIES);
    hide Walk;
    if found.Some? {
      RemoveUndoesAdd(w.main, ask.key, found.value, ask.now);
      var stop := FirstRefusal(w.mirrors, ask.premium, ask.fails, 0);
      forall i | 0 <= i < |w.mirrors|
        ensures Mirrored(w.mirrors, ask, found.value, stop, true)[i] == w.mirrors[i]
      {
        RollsBack(w.mirrors[i], w.main, ask.premium, ask.key, found.value, ask.now);
      }
      assert Mirrored(w.mirrors, ask, found.value, stop, true) == w.mirrors;
    }
  }

  lemma EnrollKeeps(caps: Caps, w: World, ask: Ask)
    requires |ask.fails| == |w.mirrors| && Inv(w)
    ensures Inv(Enroll(caps, w, ask).world)
  {
    hide Added, Removed, Inverse, WithPeer, WithoutPeer, FirstRefusal, MirrorFits;
    WalkFindsFree(w.main.byAddr, w.nextHost, TRIES);
    var found := Walk(w.main.byAddr, w.nextHost, TRIES).0;
    hide Walk;
    var existed := ask.key in w.main.byKey;
    if !existed && !Enroll(caps, w, ask).reply.Enrolled? {
      FailedEnrollLeavesNoTrace(caps, w, ask);
      assert HostInRange(Enroll(caps, w, ask).world.nextHost);
    } else if existed || found.Some? {
      var addr := if existed then w.main.byKey[ask.key] else found.value;
      AddKeepsInverse(w.main, ask.key, addr, ask.now);
      forall i | 0 <= i < |w.mirrors|
        ensures MirrorFits(WithPeer(w.mirrors[i], ask.premium, ask.key, addr, ask.now), Added(w.main, ask.key, addr, ask.now))
             && MirrorFits(w.mirrors[i], Added(w.main, ask.key, addr, ask.now))
      {
        FitsAdded(w.mirrors[i], w.main, ask.premium, ask.key, addr, ask.now);
      }
    }
  }

  lemma SyncKeeps(w: World, key: string, premium: bool, now: int, fails: seq<bool>)
    requires |fails| == |w.mirrors| && Inv(w)
    ensures Inv(Synced(w, key, premium, now, fails))
  {
    hide Added, Removed, Inverse;
    forall i | 0 <= i < |w.mirrors|
      ensures MirrorFits(SyncedMirror(w, w.mirrors[i], key, premium, now, fails[i]), w.main)
    {
      SyncFits(w, w.mirrors[i], key, premium, now, fails[i]);
    }
    hide MirrorFits, SyncedMirror;
  }

  lemma SyncFits(w: World, m: Mirror, key: string, premium: bool, now: int, fails: bool)
    requires Inverse(w.main) && MirrorFits(m, w.main)
    ensures MirrorFits(SyncedMirror(w, m, key, premium, now, fails), w.main)
  {
    if m.peers.Some? {
      var t := m.peers.value;
      RemoveKeepsInverse(t, key);
      if key in w.main.byKey && key !in t.byKey {
        var addr := w.main.byKey[key];
        SubTableAddrs(t, w.main, addr);
        AddKeepsInverse(t, key, addr, now);
      }
    }
  }

  lemma EvictKeeps(w: World, key: string)
    requires Inv(w)
    ensures Inv(Evicted(w, key))
  {
    RemoveKeepsInverse(w.main, key);
    forall i | 0 <= i < |w.mirrors| && w.mirrors[i].peers.Some?
      ensures SubTable(Removed(w.mirrors[i].peers.value, key), Removed(w.main, key))
    {
      assert MirrorFits(w.mirrors[i], w.main);
      RemoveKeepsInverse(w.mirrors[i].peers.value, key);
    }
    hide SubTable, Inverse;
  }

  // ---------------------------------------------------------------- every run

  /** Over any sequence of enrollments, whatever devices refuse, syncs and evictions. */
  lemma {:induction false} RunKeeps(caps: Caps, w: World, evs: seq<Event>)
    requires Inv(w)
    ensures Inv(Run(caps, w, evs))
  {
    hide Inv;
    if evs != [] {
      var n := |evs| - 1;
      RunKeeps(caps, w, evs[..n]);
      var before := Run(caps, w, evs[..n]);
      match evs[n]
      case EnrollCall(ask) => if |ask.fails| == |before.mirrors| { EnrollKeeps(caps, before, ask); }
      case SyncCall(key, premium, now, fails) => if |fails| == |before.mirrors| { SyncKeeps(before, key, premium, now, fails); }
      case EvictCall(key) => EvictKeeps(before, key);
    }
  }

  /** So no two peers of a gateway ever share an address, and a key has one address on every device. */
  lemma NoSharedAddress(caps: Caps, w: World, evs: seq<Event>, k: string, j: string, i: nat)
    requires Inv(w) && i < |Run(caps, w, evs).mirrors|
    requires var end := Run(caps, w, evs); k in end.main.byKey && j in end.main.byKey
    ensures var end := Run(caps, w, evs); k != j ==> end.main.byKey[k] != end.main.byKey[j]
    ensures var end := Run(caps, w, evs);
            end.mirrors[i].peers.Some? && k in end.mirrors[i].peers.value.byKey ==>
              end.mirrors[i].peers.value.byKey[k] == end.main.byKey[k]
  {
    hide Step;
    RunKeeps(caps, w, evs);
    var end := Run(caps, w, evs);
    assert MirrorFits(end.mirrors[i], end.main);
  }

  /** A successful enrollment has the key on the main device and on every mirror it reaches. */
  lemma EnrolledEverywhere(caps: Caps, w: World, ask: Ask, i: nat)
    requires |ask.fails| == |w.mirrors| && i < |w.mirrors|
    requires Enroll(caps, w, ask).reply.Enrolled?
    ensures var after, addr := Enroll(caps, w, ask).world, Enroll(caps, w, ask).reply.addr;
            && ask.key in after.main.byKey && after.main.byKey[ask.key] == addr
            && (Serves(w.mirrors[i], ask.premium) ==>
                  after.mirrors[i].peers.Some?
                  && ask.key in after.mirrors[i].peers.value.byKey && after.mirrors[i].peers.value.byKey[ask.key] == addr)
  {
    hide Walk, FirstRefusal, Removed;
  }

  /** After a sync no device refused, a key of the gateway is on a premium-only device exactly when
      it is entitled. */
  lemma SyncDecides(w: World, key: string, premium: bool, now: int, fails: seq<bool>, i: nat)
    requires Inv(w) && |fails| == |w.mirrors| && i < |w.mirrors| && !fails[i] && key in w.main.byKey
    requires w.mirrors[i].peers.Some? && w.mirrors[i].premiumOnly
    ensures var m := Synced(w, key, premium, now, fails).mirrors[i];
            m.peers.Some? && (key in m.peers.value.byKey <==> premium)
  {
    hide Inv;
  }

  // ---------------------------------------------------------------- everything a call does

  /** The mirror reaches a key of that tier: a device of its own, and premium-only devices for premium keys. */
  predicate Reached(m: Mirror, premium: bool) {
    m.peers.Some? && (m.premiumOnly ==> premium)
  }

  /** The key is on the device at that address, its handshake stamp kept or begun; every other peer, as long
      as none had that address, is as it was. */
  ghost predicate Holds(before: Table, after: Table, key: string, addr: Addr, now: int) {
    && after.byKey == before.byKey[key := addr] && after.byAddr == before.byAddr[addr := key]
    && after.seen == if key in before.seen then before.seen else before.seen[key := now]
  }

  /** Why an enrollment is turned away. The caps are for new keys, the free one for free keys; then the pool, the
      main device and the mirrors reached. */
  lemma EnrollAnswers(caps: Caps, w: World, ask: Ask)
    requires |ask.fails| == |w.mirrors| && HostInRange(w.nextHost)
    ensures var isNew, reply := ask.key !in w.main.byKey, Enroll(caps, w, ask).reply;
            reply.Enrolled? || reply ==
              if isNew && ask.total >= caps.maxTotal then GatewayFull
              else if isNew && !ask.premium && ask.free >= caps.maxFree then FreeFull
              else if isNew && AllHeld(w.main.byAddr) then PoolExhausted
              else AddFailed
    ensures var isNew := ask.key !in w.main.byKey;
            var refused := ask.mainFails || exists i :: 0 <= i < |w.mirrors| && Reached(w.mirrors[i], ask.premium) && ask.fails[i];
            Enroll(caps, w, ask).reply.Enrolled? <==>
              && !(isNew && (ask.total >= caps.maxTotal || (!ask.premium && ask.free >= caps.maxFree) || AllHeld(w.main.byAddr)))
              && !refused
  {
    hide Mirrored, Added, Removed;
    WalkFailsIff(w.main.byAddr, w.nextHost);
    RefusalIff(w.mirrors, ask.premium, ask.fails);
    hide Walk, AllHeld, FirstRefusal;
  }

  lemma RefusalIff(mirrors: seq<Mirror>, premium: bool, fails: seq<bool>)
    requires |fails| == |mirrors|
    ensures FirstRefusal(mirrors, premium, fails, 0) < |mirrors|
       <==> exists i :: 0 <= i < |mirrors| && Reached(mirrors[i], premium) && fails[i]
  {
    var stop := FirstRefusal(mirrors, premium, fails, 0);
    if stop < |mirrors| { assert Reached(mirrors[stop], premium) && fails[stop]; }
    hide FirstRefusal;
  }

  /** What a successful one leaves: the key at its address on the main device and on every mirror reached, and
      nowhere else anything new; a new key's address is the first free one of the walk. */
  lemma EnrolledLaw(caps: Caps, w: World, ask: Ask)
    requires |ask.fails| == |w.mirrors| && HostInRange(w.nextHost) && Enroll(caps, w, ask).reply.Enrolled?
    ensures var after, addr := Enroll(caps, w, ask).world, Enroll(caps, w, ask).reply.addr;
            && Holds(w.main, after.main, ask.key, addr, ask.now)
            && (if ask.key in w.main.byKey then addr == w.main.byKey[ask.key] && after.nextHost == w.nextHost
                else (Some(addr), after.nextHost) == Walk(w.main.byAddr, w.nextHost, TRIES))
            && |after.mirrors| == |w.mirrors|
            && forall i :: 0 <= i < |w.mirrors| ==>
                 && after.mirrors[i].premiumOnly == w.mirrors[i].premiumOnly
                 && if Reached(w.mirrors[i], ask.premium)
                    then after.mirrors[i].peers.Some? && Holds(w.mirrors[i].peers.value, after.mirrors[i].peers.value, ask.key, addr, ask.now)
                    else after.mirrors[i] == w.mirrors[i]
  {
    hide Walk, FirstRefusal, Removed;
  }

  /** The key is off the device, and every other peer is as it was. */
  ghost predicate Gone(before: Table, after: Table, key: string) {
    && after.byKey == before.byKey - {key} && after.seen == before.seen - {key}
    && after.byAddr == if key in before.byKey then before.byAddr - {before.byKey[key]} else before.byAddr
  }

  /** A tier sync touches only premium-only devices that answer: an entitled key of the gateway that is missing
      is put there at its address, one that is not entitled is taken off, anything else stays. */
  lemma SyncLaw(w: World, key: string, premium: bool, now: int, fails: seq<bool>, i: nat)
    requires |fails| == |w.mirrors| && i < |w.mirrors|
    ensures var m, after := w.mirrors[i], Synced(w, key, premium, now, fails);
            && after.main == w.main && after.nextHost == w.nextHost && |after.mirrors| == |w.mirrors|
            && after.mirrors[i].premiumOnly == m.premiumOnly
            && if m.peers.Some? && m.premiumOnly && !fails[i] && premium && key !in m.peers.value.byKey && key in w.main.byKey then
                 after.mirrors[i].peers.Some? && Holds(m.peers.value, after.mirrors[i].peers.value, key, w.main.byKey[key], now)
               else if m.peers.Some? && m.premiumOnly && !fails[i] && !premium && key in m.peers.value.byKey then
                 after.mirrors[i].peers.Some? && Gone(m.peers.value, after.mirrors[i].peers.value, key)
               else after.mirrors[i] == m
  {
  }

  /** An evicted peer is on no device, and every other peer where it was. */
  lemma EvictLaw(w: World, key: string)
    ensures var after := Evicted(w, key);
            && Gone(w.main, after.main, key) && after.nextHost == w.nextHost && |after.mirrors| == |w.mirrors|
            && forall i :: 0 <= i < |w.mirrors| ==>
                 && after.mirrors[i].premiumOnly == w.mirrors[i].premiumOnly
                 && (w.mirrors[i].peers.Some? <==> after.mirrors[i].peers.Some?)
                 && (w.mirrors[i].peers.Some? ==> Gone(w.mirrors[i].peers.value, after.mirrors[i].peers.value, key))
  {
  }
}
