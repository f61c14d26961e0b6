/** Enrollment on a gateway: the address allocator, the mirrored devices, tier sync and eviction
    (gateway/internal/api/api.go and the reaper of gateway/cmd/gateway/main.go). */
module Enrollment {
  import opened Arithmetic
  import opened Common
  import opened PeerTables

  /** 10.8.0.0 as a 32-bit value. */
  const NET: nat := 10 * 0x1000000 + 8 * 0x10000
  const TRIES: nat := 65534

  function AddrOf(host: nat): Addr {
    NET + host
  }

  /** A host part the allocator hands out: not network- or broadcast-ish. */
  predicate Usable(host: nat) {
    host % 256 != 0 && host % 256 != 255
  }

  function NextHost(host: nat): nat {
    if host + 1 >= 0x10000 then 2 else host + 1
  }

  /** The allocator's walk: the address found, if any, and where the next walk starts. */
  function Walk(taken: map<Addr, string>, host: nat, tries: nat): (Option<Addr>, nat)
    decreases tries
  {
    if tries == 0 then (None, host)
    else if Usable(host) && AddrOf(host) !in taken then (Some(AddrOf(host)), NextHost(host))
    else Walk(taken, NextHost(host), tries - 1)
  }

  /** The walk takes the first usable host from its start on that nobody holds, and the next one starts
      right after it. */
  lemma {:induction false} WalkIsFirst(taken: map<Addr, string>, host: nat, tries: nat)
    requires HostInRange(host) && Walk(taken, host, tries).0.Some?
    ensures var found := Walk(taken, host, tries).0.value;
            && found >= NET && HostInRange(found - NET) && Usable(found - NET) && found !in taken
            && Walk(taken, host, tries).1 == (if found - NET == 0xffff then 2 else found - NET + 1)
            && forall h :: HostInRange(h) && Usable(h) && Distance(host, h) < Distance(host, found - NET) ==> AddrOf(h) in taken
    decreases tries
  {
    if !(Usable(host) && AddrOf(host) !in taken) {
      WalkIsFirst(taken, NextHost(host), tries - 1);
      var found := Walk(taken, NextHost(host), tries - 1).0.value;
      forall h | HostInRange(h) && Usable(h) && Distance(host, h) < Distance(host, found - NET) ensures AddrOf(h) in taken {
        if h != host { assert Distance(NextHost(host), h) < Distance(NextHost(host), found - NET); }
      }
    }
  }

  predicate HostInRange(host: nat) {
    2 <= host < 0x10000
  }

  lemma {:induction false} WalkFindsFree(taken: map<Addr, string>, host: nat, tries: nat)
    requires HostInRange(host)
    ensures HostInRange(Walk(taken, host, tries).1)
    ensures var found := Walk(taken, host, tries).0;
            found.Some? ==> found.value !in taken && found.value >= NET && HostInRange(found.value - NET) && Usable(found.value - NET)
    decreases tries
  {
    if tries > 0 && !(Usable(host) && AddrOf(host) !in taken) {
      WalkFindsFree(taken, NextHost(host), tries - 1);
    }
  }

  /** How far past `host` the walk meets h. */
  function Distance(host: nat, h: nat): int {
    if h >= host then h - host else h - host + TRIES
  }

  lemma {:induction false} WalkMisses(taken: map<Addr, string>, host: nat, tries: nat, h: nat)
    requires HostInRange(host) && HostInRange(h) && Distance(host, h) < tries
    requires Walk(taken, host, tries).0.None?
    ensures Usable(h) ==> AddrOf(h) in taken
    decreases tries
  {
    if h != host {
      WalkMisses(taken, NextHost(host), tries - 1, h);
    }
  }

  ghost predicate AllHeld(taken: map<Addr, string>) {
    forall h :: HostInRange(h) && Usable(h) ==> AddrOf(h) in taken
  }

  /** The allocator fails exactly when every usable address is held, wherever its walk starts. */
  lemma WalkFailsIff(taken: map<Addr, string>, host: nat)
    requires HostInRange(host)
    ensures Walk(taken, host, TRIES).0.None? <==> AllHeld(taken)
  {
    var found := Walk(taken, host, TRIES).0;
    if found.None? {
      forall h | HostInRange(h) && Usable(h) ensures AddrOf(h) in taken {
        WalkMisses(taken, host, TRIES, h);
      }
    } else {
      WalkFindsFree(taken, host, TRIES);
      assert AddrOf(found.value - NET) == found.value;
    }
  }

  function UsableHosts(below: nat): set<nat> {
    set h | 2 <= h < below && Usable(h)
  }

  lemma OneMoreHost(h: nat)
    requires h >= 2
    ensures |UsableHosts(h + 1)| == |UsableHosts(h)| + if Usable(h) then 1 else 0
  {
    hide Usable;
    assert UsableHosts(h + 1) == if Usable(h) then UsableHosts(h) + {h} else UsableHosts(h);
  }

  lemma {:induction false} CountInBlock(block: nat, k: nat)
    requires block >= 1 && k < 256
    ensures |UsableHosts(256 * block + k)| == |UsableHosts(256 * block)| + (if k == 0 then 0 else k - 1)
  {
    hide UsableHosts;
    if k > 0 {
      CountInBlock(block, k - 1);
      var h := 256 * block + k - 1;
      DivModUnique(h, 256, block, k - 1);
      OneMoreHost(h);
    }
  }

  lemma FirstBlock()
    ensures |UsableHosts(256)| == 253
  {
    CountFirst(255);
    assert UsableHosts(256) == UsableHosts(255);
  }

  lemma {:induction false} CountFirst(k: nat)
    requires 2 <= k <= 255
    ensures |UsableHosts(k)| == k - 2
  {
    if k == 2 {
      assert UsableHosts(2) == {};
    } else {
      CountFirst(k - 1);
      assert UsableHosts(k) == UsableHosts(k - 1) + {k - 1};
    }
  }

  lemma {:induction false} CountBlocks(blocks: nat)
    requires blocks >= 1
    ensures |UsableHosts(256 * blocks)| == 254 * blocks - 1
  {
    if blocks == 1 {
      FirstBlock();
    } else {
      CountBlocks(blocks - 1);
      CountInBlock(blocks - 1, 255);
      var h := 256 * (blocks - 1) + 255;
      DivModUnique(h, 256, blocks - 1, 255);
      OneMoreHost(h);
    }
  }

  /** There are 65,023 addresses to hand out, so failing takes that many enrolled peers. */
  lemma PoolSize(taken: map<Addr, string>)
    ensures |UsableHosts(0x10000)| == 65023
    ensures AllHeld(taken) ==> |taken| >= 65023
  {
    CountBlocks(256);
    if AllHeld(taken) {
      var pool := set h | h in UsableHosts(0x10000) :: AddrOf(h);
      ShiftedSize(UsableHosts(0x10000));
      assert pool <= taken.Keys;
      SubsetSize(pool, taken.Keys);
    }
  }

  lemma {:induction false} ShiftedSize(hosts: set<nat>)
    ensures |set h | h in hosts :: AddrOf(h)| == |hosts|
    decreases hosts
  {
    var all := set h | h in hosts :: AddrOf(h);
    if h :| h in hosts {
      var rest := hosts - {h};
      ShiftedSize(rest);
      assert all == (set g | g in rest :: AddrOf(g)) + {AddrOf(h)};
    } else {
      assert hosts == {} && all == {};
    }
  }

  lemma {:induction false} SubsetSize(a: set<nat>, b: set<nat>)
    requires a <= b
    ensures |a| <= |b|
    decreases a
  {
    if x :| x in a {
      SubsetSize(a - {x}, b - {x});
    } else {
      assert a == {};
    }
  }

  // ---------------------------------------------------------------- the tables of a gateway

  /** An additional transport; peers is None when it relays into the main device. */
  datatype Mirror = Mirror(peers: Option<Table>, premiumOnly: bool)

  datatype World = World(main: Table, mirrors: seq<Mirror>, nextHost: nat)

  datatype Caps = Caps(maxTotal: nat, maxFree: nat)

  /** One enrollment past the rate limit and proof of work: the key with its tier, the limiter's
      counts, and which devices refuse it. */
  datatype Ask = Ask(key: string, premium: bool, free: nat, total: nat, now: int, mainFails: bool, fails: seq<bool>)

  datatype Reply = GatewayFull | FreeFull | PoolExhausted | AddFailed | Enrolled(addr: Addr)

  /** The mirrors an enrollment reaches. */
  predicate Serves(m: Mirror, premium: bool) {
    m.peers.Some? && !(m.premiumOnly && !premium)
  }

  /** The first mirror from i on that is reached and refuses the key. */
  function FirstRefusal(mirrors: seq<Mirror>, premium: bool, fails: seq<bool>, i: nat): (stop: nat)
    requires |fails| == |mirrors| && i <= |mirrors|
    ensures i <= stop <= |mirrors| && (stop < |mirrors| ==> Serves(mirrors[stop], premium) && fails[stop])
    ensures forall k :: i <= k < stop ==> !(Serves(mirrors[k], premium) && fails[k])
    decreases |mirrors| - i
  {
    if i == |mirrors| || (Serves(mirrors[i], premium) && fails[i]) then i else FirstRefusal(mirrors, premium, fails, i + 1)
  }

  function WithPeer(m: Mirror, premium: bool, key: string, addr: Addr, now: int): Mirror {
    if Serves(m, premium) then m.(peers := Some(Added(m.peers.value, key, addr, now))) else m
  }

  function WithoutPeer(m: Mirror, premium: bool, key: string): Mirror {
    if Serves(m, premium) then m.(peers := Some(Removed(m.peers.value, key))) else m
  }

  /** The mirrors before `stop`, added to and, on a roll-back, removed from again. */
  function Mirrored(mirrors: seq<Mirror>, ask: Ask, addr: Addr, stop: nat, rollBack: bool): (r: seq<Mirror>)
    ensures |r| == |mirrors|
  {
    seq(|mirrors|, i requires 0 <= i < |mirrors| =>
      if i >= stop then mirrors[i]
      else
        var m := WithPeer(mirrors[i], ask.premium, ask.key, addr, ask.now);
        if rollBack then WithoutPeer(m, ask.premium, ask.key) else m)
  }

  lemma MirroredIs(was: seq<Mirror>, now: seq<Mirror>, ask: Ask, addr: Addr, stop: nat)
    requires |now| == |was|
    requires forall k :: 0 <= k < |was| ==> now[k] == if k < stop then WithPeer(was[k], ask.premium, ask.key, addr, ask.now) else was[k]
    ensures now == Mirrored(was, ask, addr, stop, false)
  {
    hide WithPeer, WithoutPeer;
  }

  lemma TakenBackIs(was: seq<Mirror>, mid: seq<Mirror>, now: seq<Mirror>, ask: Ask, addr: Addr, stop: nat)
    requires |now| == |was| && mid == Mirrored(was, ask, addr, stop, false)
    requires forall k :: 0 <= k < |was| ==> now[k] == if k < stop then WithoutPeer(mid[k], ask.premium, ask.key) else mid[k]
    ensures now == Mirrored(was, ask, addr, stop, true)
  {
    hide WithPeer, WithoutPeer;
  }

  datatype Effect = Effect(world: World, reply: Reply)

  /** The registration section of the enroll handler. */
  function Enroll(caps: Caps, w: World, ask: Ask): Effect
    requires |ask.fails| == |w.mirrors|
  {
    var existed := ask.key in w.main.byKey;
    if !existed && ask.total >= caps.maxTotal then Effect(w, GatewayFull)
    else if !existed && !ask.premium && ask.free >= caps.maxFree then Effect(w, FreeFull)
    else
      var (found, next) := if existed then (Some(w.main.byKey[ask.key]), w.nextHost) else Walk(w.main.byAddr, w.nextHost, TRIES);
      var walked := w.(nextHost := next);
      if found.None? then Effect(walked, PoolExhausted)
      else if ask.mainFails then Effect(walked, AddFailed)
      else
        var stop := FirstRefusal(w.mirrors, ask.premium, ask.fails, 0);
        var added := Added(w.main, ask.key, found.value, ask.now);
        if stop == |w.mirrors| then
          Effect(World(added, Mirrored(w.mirrors, ask, found.value, stop, false), next), Enrolled(found.value))
        else
          Effect(World(if existed then added else Removed(added, ask.key),
                       Mirrored(w.mirrors, ask, found.value, stop, !existed), next), AddFailed)
  }

  /** Tier sync: one key's membership of the premium-only devices; a device may refuse. */
  function Synced(w: World, key: string, premium: bool, now: int, fails: seq<bool>): World
    requires |fails| == |w.mirrors|
  {
    w.(mirrors := seq(|w.mirrors|, i requires 0 <= i < |w.mirrors| => SyncedMirror(w, w.mirrors[i], key, premium, now, fails[i])))
  }

  function SyncedMirror(w: World, m: Mirror, key: string, premium: bool, now: int, fails: bool): Mirror {
    if m.peers.None? || !m.premiumOnly || fails then m
    else if premium && key !in m.peers.value.byKey && key in w.main.byKey then
      m.(peers := Some(Added(m.peers.value, key, w.main.byKey[key], now)))
    else if !premium && key in m.peers.value.byKey then m.(peers := Some(Removed(m.peers.value, key)))
    else m
  }

  /** Eviction of an idle peer from every device. */
  function Evicted(w: World, key: string): World {
    w.(main := Removed(w.main, key),
       mirrors := seq(|w.mirrors|, i requires 0 <= i < |w.mirrors| =>
         if w.mirrors[i].peers.Some? then w.mirrors[i].(peers := Some(Removed(w.mirrors[i].peers.value, key))) else w.mirrors[i]))
  }

  // ---------------------------------------------------------------- the server itself

  datatype Transport = Transport(device: Device?, premiumOnly: bool)

  class Server {
    const caps: Caps
    const dev: Device
    const extra: seq<Transport>
    var nextHost: nat

    constructor (caps: Caps, dev: Device, extra: seq<Transport>)
      ensures this.caps == caps && this.dev == dev && this.extra == extra && nextHost == 2
    {
      this.caps, this.dev, this.extra, nextHost := caps, dev, extra, 2;
    }

    /** Each transport that owns a device owns one of its own. */
    ghost predicate Wired() {
      && (forall i :: 0 <= i < |extra| ==> extra[i].device != dev)
      && (forall i, j :: 0 <= i < j < |extra| && extra[i].device != null ==> extra[i].device != extra[j].device)
    }

    ghost function Devices(): set<Device> {
      set i | 0 <= i < |extra| && extra[i].device != null :: extra[i].device
    }

    ghost function MirrorAt(i: nat): Mirror
      requires i < |extra|
      reads Devices()
    {
      if extra[i].device == null then Mirror(None, extra[i].premiumOnly)
      else
        assert extra[i].device in Devices();
        Mirror(Some(extra[i].device.Peers()), extra[i].premiumOnly)
    }

    ghost function Now(): World
      reads this, dev, Devices()
    {
      World(dev.Peers(), seq(|extra|, i requires 0 <= i < |extra| reads Devices() => MirrorAt(i)), nextHost)
    }

    /** The peer's address, or the next free one; the walk goes on where it stopped. */
    method Assign(key: string) returns (addr: Option<Addr>)
      modifies this`nextHost
      ensures key in dev.byKey ==> addr == Some(dev.byKey[key]) && nextHost == old(nextHost)
      ensures key !in dev.byKey ==> (addr, nextHost) == Walk(dev.byAddr, old(nextHost), TRIES)
    {
      if key in dev.byKey {
        return Some(dev.byKey[key]);
      }
      for i := 0 to TRIES
        invariant Walk(dev.byAddr, old(nextHost), TRIES) == Walk(dev.byAddr, nextHost, TRIES - i)
      {
        var host := nextHost;
        nextHost := nextHost + 1;
        if nextHost >= 0x10000 {
          nextHost := 2;
        }
        if host % 256 == 0 || host % 256 == 255 {
          continue;
        }
        if NET + host !in dev.byAddr {
          return Some(NET + host);
        }
      }
      addr := None;
    }

    /** One round of that loop: mirror i gets the peer, is not reached, or refuses. */
    method AddToMirror(i: nat, ask: Ask, addr: Addr) returns (ok: bool)
      requires Wired() && i < |extra| == |ask.fails|
      modifies Devices()
      ensures ok <==> !(Serves(old(MirrorAt(i)), ask.premium) && ask.fails[i])
      ensures MirrorAt(i) == if ok then WithPeer(old(MirrorAt(i)), ask.premium, ask.key, addr, ask.now) else old(MirrorAt(i))
      ensures forall k :: 0 <= k < |extra| && k != i ==> MirrorAt(k) == old(MirrorAt(k))
      ensures dev.Peers() == old(dev.Peers())
    {
      hide Added;
      var e := extra[i];
      if e.device == null || (e.premiumOnly && !ask.premium) {
        return true;
      }
      assert e.device in Devices();
      ok := e.device.AddPeer(ask.key, addr, ask.now, ask.fails[i]);
    }

    /** Add the peer to each mirror it reaches, up to the first that refuses. */
    method MirrorPeer(ask: Ask, addr: Addr) returns (stop: nat)
      requires Wired() && |ask.fails| == |extra|
      modifies Devices()
      ensures stop == FirstRefusal(old(Now()).mirrors, ask.premium, ask.fails, 0)
      ensures Now() == old(Now()).(mirrors := Mirrored(old(Now()).mirrors, ask, addr, stop, false))
    {
      hide Added, Walk, Mirrored, Serves, WithPeer;
      ghost var was := Now().mirrors;
      stop := 0;
      while stop < |extra|
        invariant stop <= |extra|
        invariant FirstRefusal(was, ask.premium, ask.fails, 0) == FirstRefusal(was, ask.premium, ask.fails, stop)
        invariant forall k :: 0 <= k < stop ==> MirrorAt(k) == WithPeer(was[k], ask.premium, ask.key, addr, ask.now)
        invariant forall k :: stop <= k < |extra| ==> MirrorAt(k) == was[k]
        invariant dev.Peers() == old(dev.Peers())
      {
        var ok := AddToMirror(stop, ask, addr);
        if !ok {
          break;
        }
        stop := stop + 1;
      }
      MirroredIs(was, Now().mirrors, ask, addr, stop);
    }

    /** Take the peer off every mirror before `stop` it was added to. */
    method RollBack(ask: Ask, stop: nat)
      requires Wired() && stop <= |extra|
      modifies Devices()
      ensures forall k :: 0 <= k < |extra| ==>
                MirrorAt(k) == if k < stop then WithoutPeer(old(MirrorAt(k)), ask.premium, ask.key) else old(MirrorAt(k))
      ensures dev.Peers() == old(dev.Peers())
    {
      hide Removed;
      for i := 0 to stop
        invariant forall k :: 0 <= k < i ==> MirrorAt(k) == WithoutPeer(old(MirrorAt(k)), ask.premium, ask.key)
        invariant forall k :: i <= k < |extra| ==> MirrorAt(k) == old(MirrorAt(k))
        invariant dev.Peers() == old(dev.Peers())
      {
        var e := extra[i];
        assert MirrorAt(i) == old(MirrorAt(i));
        if e.device == null || (e.premiumOnly && !ask.premium) {
          continue;
        }
        assert e.device in Devices();
        label Before:
        var _ := e.device.RemovePeer(ask.key, false);
        assert forall k :: 0 <= k < |extra| && k != i ==> MirrorAt(k) == old@Before(MirrorAt(k));
      }
    }

    /** A new peer that a mirror refused, taken off the main device and the mirrors before. */
    method TakeBack(ask: Ask, addr: Addr, stop: nat, ghost was: seq<Mirror>)
      requires Wired() && |was| == |extra| && stop <= |extra|
      requires Now().mirrors == Mirrored(was, ask, addr, stop, false)
      modifies dev, Devices()
      ensures Now() == World(Removed(old(dev.Peers()), ask.key), Mirrored(was, ask, addr, stop, true), nextHost)
    {
      hide Removed, Mirrored, WithoutPeer, WithPeer;
      ghost var mid := Now().mirrors;
      var _ := dev.RemovePeer(ask.key, false);
      assert forall k :: 0 <= k < |extra| ==> MirrorAt(k) == old(MirrorAt(k)) == mid[k];
      RollBack(ask, stop);
      assert forall k :: 0 <= k < |extra| ==>
          Now().mirrors[k] == if k < stop then WithoutPeer(mid[k], ask.premium, ask.key) else mid[k];
      TakenBackIs(was, mid, Now().mirrors, ask, addr, stop);
    }

    /** The registration section: capacity, address, main device, mirrors; a new peer that a mirror
        refuses is rolled back everywhere. */
    method HandleEnroll(ask: Ask) returns (reply: Reply)
      requires Wired() && |ask.fails| == |extra|
      modifies this, dev, Devices()
      ensures Effect(Now(), reply) == Enroll(caps, old(Now()), ask)
    {
      hide Added, Removed, Walk, FirstRefusal, Mirrored;
      ghost var w := Now();
      var existed := ask.key in dev.byKey;
      if !existed {
        if ask.total >= caps.maxTotal {
          return GatewayFull;
        }
        if !ask.premium && ask.free >= caps.maxFree {
          return FreeFull;
        }
      }
      var address := Assign(ask.key);
      assert Now().mirrors == w.mirrors;
      if address.None? {
        return PoolExhausted;
      }
      label Assigned:
      var added := dev.AddPeer(ask.key, address.value, ask.now, ask.mainFails);
      assert forall k :: 0 <= k < |extra| ==> MirrorAt(k) == old@Assigned(MirrorAt(k));
      assert Now().mirrors == w.mirrors;
      if !added {
        return AddFailed;
      }
      var stop := MirrorPeer(ask, address.value);
      if stop == |extra| {
        return Enrolled(address.value);
      }
      if !existed {
        TakeBack(ask, address.value, stop, w.mirrors);
      }
      reply := AddFailed;
    }

    method SyncPremiumPeers(key: string, premium: bool, now: int, fails: seq<bool>)
      requires Wired() && |fails| == |extra|
      modifies Devices()
      ensures Now() == Synced(old(Now()), key, premium, now, fails)
    {
      hide Added, Removed;
      ghost var w := Now();
      for i := 0 to |extra|
        invariant forall k :: 0 <= k < i ==> MirrorAt(k) == SyncedMirror(w, w.mirrors[k], key, premium, now, fails[k])
        invariant forall k :: i <= k < |extra| ==> MirrorAt(k) == w.mirrors[k]
        invariant dev.Peers() == w.main && nextHost == w.nextHost
      {
        var e := extra[i];
        assert MirrorAt(i) == w.mirrors[i];
        if e.device == null || !e.premiumOnly {
          continue;
        }
        assert e.device in Devices();
        var onDevice := key in e.device.byKey;
        label Before:
        if premium && !onDevice {
          if key in dev.byKey {
            var _ := e.device.AddPeer(key, dev.byKey[key], now, fails[i]);
          }
        } else if !premium && onDevice {
          var _ := e.device.RemovePeer(key, fails[i]);
        }
        assert forall k :: 0 <= k < |extra| && k != i ==> MirrorAt(k) == old@Before(MirrorAt(k));
      }
      assert Now().mirrors == Synced(w, key, premium, now, fails).mirrors;
    }
  }
}
