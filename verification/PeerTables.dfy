/** A transport device's peer maps (gateway/internal/wg/device.go). */
module PeerTables {
  import opened Common

  /** An IPv4 address as its 32-bit value. */
  type Addr = nat

  datatype Table = Table(byKey: map<string, Addr>, byAddr: map<Addr, string>, seen: map<string, int>)

  datatype Record = Record(key: string, addr: Addr, seen: Option<int>)

  function Added(t: Table, key: string, addr: Addr, now: int): Table {
    Table(t.byKey[key := addr], t.byAddr[addr := key], if key in t.seen then t.seen else t.seen[key := now])
  }

  function Removed(t: Table, key: string): Table {
    Table(t.byKey - {key}, if key in t.byKey then t.byAddr - {t.byKey[key]} else t.byAddr, t.seen - {key})
  }

  function Stamped(t: Table, r: Record): Table {
    if r.seen.Some? then t.(seen := t.seen[r.key := r.seen.value]) else t
  }

  /** The records the device takes, in order; the others are skipped. */
  function Restored(t: Table, recs: seq<Record>, fails: seq<bool>, now: int): Table
    requires |fails| == |recs|
  {
    if recs == [] then t
    else
      var n := |recs| - 1;
      var before := Restored(t, recs[..n], fails[..n], now);
      if fails[n] then before else Stamped(Added(before, recs[n].key, recs[n].addr, now), recs[n])
  }

  /** The two address maps are each other's inverse, and exactly the peers held are stamped. */
  ghost predicate Inverse(t: Table) {
    && (forall k :: k in t.byKey ==> t.byKey[k] in t.byAddr && t.byAddr[t.byKey[k]] == k)
    && (forall a :: a in t.byAddr ==> t.byAddr[a] in t.byKey && t.byKey[t.byAddr[a]] == a)
    && t.seen.Keys == t.byKey.Keys
  }

  class Device {
    var byKey: map<string, Addr>
    var byAddr: map<Addr, string>
    var seen: map<string, int>

    constructor ()
      ensures Peers() == Table(map[], map[], map[])
    {
      byKey, byAddr, seen := map[], map[], map[];
    }

    function Peers(): Table
      reads this
    {
      Table(byKey, byAddr, seen)
    }

    /** `fails`: the key does not decode or the device refuses it; nothing changes then. */
    method AddPeer(key: string, addr: Addr, now: int, fails: bool) returns (ok: bool)
      modifies this
      ensures ok == !fails
      ensures Peers() == if fails then old(Peers()) else Added(old(Peers()), key, addr, now)
    {
      if fails {
        return false;
      }
      byKey := byKey[key := addr];
      byAddr := byAddr[addr := key];
      if key !in seen {
        seen := seen[key := now];
      }
      ok := true;
    }

    method RemovePeer(key: string, fails: bool) returns (ok: bool)
      modifies this
      ensures ok == !fails
      ensures Peers() == if fails then old(Peers()) else Removed(old(Peers()), key)
    {
      if fails {
        return false;
      }
      if key in byKey {
        byAddr := byAddr - {byKey[key]};
      }
      byKey := byKey - {key};
      seen := seen - {key};
      ok := true;
    }

    method RestorePeers(recs: seq<Record>, fails: seq<bool>, now: int) returns (n: nat)
      requires |fails| == |recs|
      modifies this
      ensures Peers() == Restored(old(Peers()), recs, fails, now)
      ensures n == |recs| - |set i | 0 <= i < |recs| && fails[i]|
    {
      n := 0;
      ghost var skipped: set<int> := {};
      for i := 0 to |recs|
        invariant Peers() == Restored(old(Peers()), recs[..i], fails[..i], now)
        invariant skipped == set j | 0 <= j < i && fails[j]
        invariant n == i - |skipped|
      {
        assert recs[..i + 1][..i] == recs[..i] && fails[..i + 1][..i] == fails[..i];
        var ok := AddPeer(recs[i].key, recs[i].addr, now, fails[i]);
        if !ok {
          skipped := skipped + {i};
          continue;
        }
        if recs[i].seen.Some? {
          seen := seen[recs[i].key := recs[i].seen.value];
        }
        n := n + 1;
      }
      assert recs[..|recs|] == recs && fails[..|recs|] == fails;
    }
  }

  // ---------------------------------------------------------------- what the maps keep

  lemma AddKeepsInverse(t: Table, key: string, addr: Addr, now: int)
    requires Inverse(t)
    requires if key in t.byKey then t.byKey[key] == addr else addr !in t.byAddr
    ensures Inverse(Added(t, key, addr, now))
  {
  }

  lemma RemoveKeepsInverse(t: Table, key: string)
    requires Inverse(t)
    ensures Inverse(Removed(t, key))
  {
  }

  /** Removing a peer just added leaves no trace. */
  lemma RemoveUndoesAdd(t: Table, key: string, addr: Addr, now: int)
    requires Inverse(t) && key !in t.byKey && addr !in t.byAddr
    ensures Removed(Added(t, key, addr, now), key) == t
  {
    var u := Removed(Added(t, key, addr, now), key);
    assert key !in t.seen;
    assert u.byKey == t.byKey && u.byAddr == t.byAddr && u.seen == t.seen;
  }

  /** Loading keeps the first record of a key, so keys are distinct; addresses need not be. */
  predicate KeysDistinct(recs: seq<Record>) {
    forall i, j :: 0 <= i < j < |recs| ==> recs[i].key != recs[j].key
  }

  predicate TakenAddrsDistinct(recs: seq<Record>, fails: seq<bool>)
    requires |fails| == |recs|
  {
    forall i, j :: 0 <= i < j < |recs| && !fails[i] && !fails[j] ==> recs[i].addr != recs[j].addr
  }

  /** Some record taken satisfies the test: it has this key, or this address. */
  predicate TookKey(recs: seq<Record>, fails: seq<bool>, k: string)
    requires |fails| == |recs|
  {
    exists i :: 0 <= i < |recs| && !fails[i] && recs[i].key == k
  }

  predicate TookAddr(recs: seq<Record>, fails: seq<bool>, a: Addr)
    requires |fails| == |recs|
  {
    exists i :: 0 <= i < |recs| && !fails[i] && recs[i].addr == a
  }

  lemma TookGrows(recs: seq<Record>, fails: seq<bool>, k: string, a: Addr)
    requires |fails| == |recs| > 0
    ensures var n := |recs| - 1;
            && (TookKey(recs[..n], fails[..n], k) ==> TookKey(recs, fails, k))
            && (TookAddr(recs[..n], fails[..n], a) ==> TookAddr(recs, fails, a))
  {
    var n := |recs| - 1;
    if TookKey(recs[..n], fails[..n], k) {
      var i :| 0 <= i < n && !fails[..n][i] && recs[..n][i].key == k;
      assert !fails[i] && recs[i].key == k;
    }
    if TookAddr(recs[..n], fails[..n], a) {
      var i :| 0 <= i < n && !fails[..n][i] && recs[..n][i].addr == a;
      assert !fails[i] && recs[i].addr == a;
    }
  }

  /** Only what the records say is held. */
  lemma {:induction false} RestoredOnly(recs: seq<Record>, fails: seq<bool>, now: int, k: string, a: Addr)
    requires |fails| == |recs|
    ensures var t := Restored(Table(map[], map[], map[]), recs, fails, now);
            (k in t.byKey ==> TookKey(recs, fails, k)) && (a in t.byAddr ==> TookAddr(recs, fails, a))
  {
    if recs != [] {
      var n := |recs| - 1;
      RestoredOnly(recs[..n], fails[..n], now, k, a);
      TookGrows(recs, fails, k, a);
      hide TookKey, TookAddr;
      if !fails[n] { NthTook(recs, fails, n); }
    }
  }

  lemma NthTook(recs: seq<Record>, fails: seq<bool>, i: nat)
    requires |fails| == |recs| && i < |recs| && !fails[i]
    ensures TookKey(recs, fails, recs[i].key) && TookAddr(recs, fails, recs[i].addr)
  {
  }

  /** Every record taken is held, at its address and with its last handshake, if it has one. */
  lemma {:induction false} RestoredAll(recs: seq<Record>, fails: seq<bool>, now: int, i: nat)
    requires |fails| == |recs| && KeysDistinct(recs) && i < |recs| && !fails[i]
    ensures var t := Restored(Table(map[], map[], map[]), recs, fails, now);
            && recs[i].key in t.byKey && t.byKey[recs[i].key] == recs[i].addr
            && recs[i].key in t.seen && t.seen[recs[i].key] == if recs[i].seen.Some? then recs[i].seen.value else now
  {
    var n := |recs| - 1;
    if i < n {
      RestoredAll(recs[..n], fails[..n], now, i);
    } else {
      NotStamped(recs[..n], fails[..n], now, recs[n].key);
    }
  }

  lemma {:induction false} NotStamped(recs: seq<Record>, fails: seq<bool>, now: int, k: string)
    requires |fails| == |recs| && forall i :: 0 <= i < |recs| ==> recs[i].key != k
    ensures k !in Restored(Table(map[], map[], map[]), recs, fails, now).seen
  {
    if recs != [] {
      var n := |recs| - 1;
      NotStamped(recs[..n], fails[..n], now, k);
    }
  }

  lemma {:induction false} DistinctRestoresInverse(recs: seq<Record>, fails: seq<bool>, now: int)
    requires |fails| == |recs| && KeysDistinct(recs) && TakenAddrsDistinct(recs, fails)
    ensures Inverse(Restored(Table(map[], map[], map[]), recs, fails, now))
  {
    if recs != [] {
      var n := |recs| - 1;
      DistinctRestoresInverse(recs[..n], fails[..n], now);
      var before := Restored(Table(map[], map[], map[]), recs[..n], fails[..n], now);
      if !fails[n] {
        var r := recs[n];
        RestoredOnly(recs[..n], fails[..n], now, r.key, r.addr);
        assert !TookKey(recs[..n], fails[..n], r.key) && !TookAddr(recs[..n], fails[..n], r.addr);
        hide Inverse, TookKey, TookAddr;
        AddKeepsInverse(before, r.key, r.addr, now);
        StampKeepsInverse(Added(before, r.key, r.addr, now), r);
      }
    }
  }

  lemma StampKeepsInverse(t: Table, r: Record)
    requires Inverse(t) && r.key in t.byKey
    ensures Inverse(Stamped(t, r))
  {
  }

  /** A restart rebuilds inverse maps exactly when the cached addresses are distinct. */
  lemma RestoreIsInverseIff(recs: seq<Record>, fails: seq<bool>, now: int)
    requires |fails| == |recs| && KeysDistinct(recs)
    ensures Inverse(Restored(Table(map[], map[], map[]), recs, fails, now)) <==> TakenAddrsDistinct(recs, fails)
  {
    var t := Restored(Table(map[], map[], map[]), recs, fails, now);
    if TakenAddrsDistinct(recs, fails) {
      DistinctRestoresInverse(recs, fails, now);
    } else {
      var i, j :| 0 <= i < j < |recs| && !fails[i] && !fails[j] && recs[i].addr == recs[j].addr;
      RestoredAll(recs, fails, now, i);
      RestoredAll(recs, fails, now, j);
    }
  }

  /** A cache line repeating an address is accepted, and two peers then claim it. */
  lemma RepeatedAddress()
    ensures var recs := [Record("a", 1, None), Record("b", 1, None)];
            !Inverse(Restored(Table(map[], map[], map[]), recs, [false, false], 0))
  {
    var recs := [Record("a", 1, None), Record("b", 1, None)];
    RestoreIsInverseIff(recs, [false, false], 0);
    assert recs[0].addr == recs[1].addr;
  }
}
