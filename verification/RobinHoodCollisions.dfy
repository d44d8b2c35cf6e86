/** Keys that all have one hash: a robin-hood table takes 127 of them and no more, however many slots it has. */
module RobinHoodCollisions {
  import opened Counting
  import opened RobinHood
  import opened RobinHoodCrowding
  import opened RobinHoodSlots

  ghost predicate SameHash<K(!new)>(hash: (K, nat) -> nat) {
    forall j, k, mult :: hash(j, mult) == hash(k, mult)
  }

  lemma OneHome<K(!new)>(hash: (K, nat) -> nat, mask: nat, mult: nat, keys: set<K>, limit: nat)
    requires SameHash(hash) && limit > 0
    ensures Crowded(hash, mask, mult, keys, limit) <==> |keys| >= limit
  {
    if Crowded(hash, mask, mult, keys, limit) {
      var a: nat, b: nat :| a <= b && |HomedIn(hash, mask, mult, keys, a, b)| >= b - a + limit;
      SubsetCount(HomedIn(hash, mask, mult, keys, a, b), keys);
    }
    if |keys| >= limit {
      var k :| k in keys;
      var h := HomeOf(hash, mask, mult, k);
      forall j | j in keys ensures HomeOf(hash, mask, mult, j) == h {
        assert hash(j, mult) == hash(k, mult);
      }
      assert HomedIn(hash, mask, mult, keys, h, h) == keys;
    }
  }

  lemma DoubledAllows(load: nat, x: nat)
    ensures CalcMaxNumElementsAllowed(load, x * 2) >= 2 * CalcMaxNumElementsAllowed(load, x)
  {
    var y := x * load;
    assert x * 2 * load == 2 * y;
  }

  /** The next table allows one key more. */
  lemma NextAllows<K(!new), V(!new)>(t: Table<K, V>)
    requires t.mNumElements <= CalcMaxNumElementsAllowed(t.maxLoadFactor100, t.mMask + 1)
    requires CalcMaxNumElementsAllowed(t.maxLoadFactor100, t.mMask + 1) > 0
    ensures t.mNumElements < CalcMaxNumElementsAllowed(t.maxLoadFactor100, t.NextMask() + 1)
  {
    hide CalcMaxNumElementsAllowed;
    DoubledAllows(t.maxLoadFactor100, t.mMask + 1);
  }

  /** With fewer than 127 such keys there is room for another, at once or after one rehash; a table with 127 can
      take none. */
  lemma RoomForOneHome<K(!new), V(!new)>(t: Table<K, V>, key: K)
    requires t.Valid() && SameHash(t.hash) && key !in t.Model
    requires t.mMask != 0 && CalcMaxNumElementsAllowed(t.maxLoadFactor100, t.mMask + 1) > 0
    ensures |t.Model| < 127 ==> t.RoomWithoutRehash() || t.NextRoomy()
    ensures |t.Model| >= 127 ==> AlwaysCrowded(t.hash, t.Model.Keys + {key}, 128)
  {
    hide Table.Valid, Crowded, CalcMaxNumElementsAllowed;
    t.ValidBounds();
    NextAllows(t);
    var keys := t.Model.Keys;
    assert |keys| == |t.Model|;
    OneHome(t.hash, t.NextMask(), t.NextMult(), keys, 127);
    if |keys| >= 127 {
      forall mask: nat, mult: nat ensures Crowded(t.hash, mask, mult, keys + {key}, 128) {
        OneHome(t.hash, mask, mult, keys + {key}, 128);
      }
    }
  }

  /** n keys, all below n. */
  ghost predicate FirstKeys(m: map<nat, nat>, n: nat) {
    |m| == n && forall k :: k in m ==> k < n
  }

  lemma NoKeys(m: map<nat, nat>)
    requires m == map[]
    ensures FirstKeys(m, 0)
  {
  }

  lemma NextKey(m: map<nat, nat>, n: nat)
    requires FirstKeys(m, n)
    ensures n !in m && |m| == n && FirstKeys(m[n := 0], n + 1)
  {
    assert m[n := 0].Keys == m.Keys + {n};
  }

  /** An empty table reserved for more than c elements, all with one hash. */
  method OneHomeTable(load: nat, c: nat) returns (t: Table<nat, nat>)
    requires 10 < load < 100
    ensures fresh(t) && fresh(t.mInfo) && fresh(t.mKeyVals)
    ensures t.Valid() && t.Model == map[] && SameHash(t.hash) && t.maxLoadFactor100 == load
    ensures t.mMask != 0 && c < CalcMaxNumElementsAllowed(load, t.mMask + 1)
  {
    hide Table.Valid, Crowded;
    t := new Table<nat, nat>((k, mult) => 0, load);
    var ok := t.Reserve(c + 1, true);
  }

  /** Stores the next key, if the table has fewer than 127. */
  method StoreNext(t: Table<nat, nat>, n: nat, ghost c: nat) returns (ok: bool)
    requires t.Valid() && SameHash(t.hash) && FirstKeys(t.Model, n) && t.mMask != 0
    requires c < CalcMaxNumElementsAllowed(t.maxLoadFactor100, t.mMask + 1)
    modifies t, t.mInfo, t.mKeyVals
    ensures ok <==> n < 127
    ensures ok ==> t.Valid() && FirstKeys(t.Model, n + 1)
    ensures t.mMask != 0 && c < CalcMaxNumElementsAllowed(t.maxLoadFactor100, t.mMask + 1)
    ensures (t.mInfo == old(t.mInfo) && t.mKeyVals == old(t.mKeyVals)) || (fresh(t.mInfo) && fresh(t.mKeyVals))
  {
    hide Table.Valid, Table.NextRoomy, Table.RoomWithoutRehash, Table.NextOverflows, Crowded, AlwaysCrowded,
      CalcMaxNumElementsAllowed, FirstKeys, SameHash;
    NextKey(t.Model, n);
    RoomForOneHome(t, n);
    var idx, inserted;
    ok, idx, inserted := t.TryEmplace(n, 0);
    AllowedGrows(t.maxLoadFactor100, old(t.mMask) + 1, t.mMask + 1);
  }

  /** Stores keys with one hash in a table reserved for more than c elements until an insertion fails. */
  method FillOneHome(load: nat, c: nat) returns (stored: nat, allowed: nat)
    requires 10 < load < 100
    ensures stored == 127 && allowed > c
  {
    hide Table.Valid, CalcMaxNumElementsAllowed, FirstKeys, SameHash;
    var t := OneHomeTable(load, c);
    stored := 0;
    NoKeys(t.Model);
    while true
      invariant fresh(t) && fresh(t.mInfo) && fresh(t.mKeyVals)
      invariant t.Valid() && SameHash(t.hash) && t.maxLoadFactor100 == load
      invariant FirstKeys(t.Model, stored) && stored <= 127
      invariant t.mMask != 0 && c < CalcMaxNumElementsAllowed(load, t.mMask + 1)
      decreases 127 - stored
    {
      allowed := CalcMaxNumElementsAllowed(load, t.mMask + 1);
      var ok := StoreNext(t, stored, c);
      if !ok {
        return;
      }
      stored := stored + 1;
    }
  }
}
