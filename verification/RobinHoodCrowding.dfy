/** How many keys with homes close together a table can hold: an info byte has room for at most 126 increments beyond
    the first, and only for the smallest increment. */
module RobinHoodCrowding {
  import opened Arithmetic
  import opened Counting
  import opened RobinHoodSlots
  import opened RobinHoodMoves

  /** The keys with a home from a to b. */
  ghost function HomedIn<K>(hash: (K, nat) -> nat, mask: nat, mult: nat, keys: set<K>, a: nat, b: nat): set<K> {
    set k | k in keys && a <= HomeOf(hash, mask, mult, k) <= b
  }

  /** Some stretch of homes has at least limit - 1 keys more than it has homes. */
  ghost predicate Crowded<K(!new)>(hash: (K, nat) -> nat, mask: nat, mult: nat, keys: set<K>, limit: nat) {
    exists a: nat, b: nat :: a <= b && |HomedIn(hash, mask, mult, keys, a, b)| >= b - a + limit
  }

  /** However large the table and whatever the multiplier. */
  ghost predicate AlwaysCrowded<K(!new)>(hash: (K, nat) -> nat, keys: set<K>, limit: nat) {
    forall mask: nat, mult: nat :: Crowded(hash, mask, mult, keys, limit)
  }

  lemma CrowdedMore<K(!new)>(hash: (K, nat) -> nat, mask: nat, mult: nat, keys: set<K>, more: set<K>, limit: nat)
    requires Crowded(hash, mask, mult, keys, limit) && keys <= more
    ensures Crowded(hash, mask, mult, more, limit)
  {
    var a: nat, b: nat :| a <= b && |HomedIn(hash, mask, mult, keys, a, b)| >= b - a + limit;
    SubsetCount(HomedIn(hash, mask, mult, keys, a, b), HomedIn(hash, mask, mult, more, a, b));
  }

  lemma {:induction false} PlacesCount<K>(s: set<K>, pos: map<K, nat>, lo: nat, hi: nat)
    requires lo <= hi && (forall k :: k in s ==> k in pos && lo <= pos[k] < hi)
    requires forall j, k :: j in s && k in s && pos[j] == pos[k] ==> j == k
    ensures |s| <= hi - lo
    decreases hi - lo
  {
    if s != {} {
      if k :| k in s && pos[k] == hi - 1 {
        PlacesCount(s - {k}, pos, lo, hi - 1);
      } else {
        PlacesCount(s, pos, lo, hi - 1);
      }
    }
  }

  /** Crowded homes push some key far. */
  lemma PushedFar<K, V(!new)>(hash: (K, nat) -> nat, g: Layout, info: seq<int>, kv: seq<Node<K, V>>,
                              m: map<K, V>, pos: map<K, nat>, a: nat, b: nat, limit: nat) returns (k: K)
    requires Inv(hash, g, info, kv, m, pos) && a <= b && limit > 1
    requires |HomedIn(hash, g.mask, g.mult, m.Keys, a, b)| >= b - a + limit
    ensures k in m && k in pos && pos[k] >= Home(hash, g, k) + limit - 1
  {
    var s := HomedIn(hash, g.mask, g.mult, m.Keys, a, b);
    if exists k :: k in s && k in pos && pos[k] >= Home(hash, g, k) + limit - 1 {
      k :| k in s && k in pos && pos[k] >= Home(hash, g, k) + limit - 1;
    } else {
      forall k | k in s ensures k in pos && a <= pos[k] < b + limit - 1 {
        ProbeReaches(hash, g, info, kv, m, pos, k, Home(hash, g, k));
      }
      forall j, k | j in s && k in s && pos[j] == pos[k] ensures j == k {
        assert kv[pos[j]].key == j && kv[pos[k]].key == k;
      }
      PlacesCount(s, pos, a, b + limit - 1);
      assert false;
    }
  }

  lemma FarByte<K, V(!new)>(hash: (K, nat) -> nat, g: Layout, info: seq<int>, kv: seq<Node<K, V>>,
                            m: map<K, V>, pos: map<K, nat>, k: K, d: nat)
    requires Inv(hash, g, info, kv, m, pos) && k in m && k in pos && pos[k] >= Home(hash, g, k) + d
    ensures pos[k] < g.n && info[pos[k]] >= (d + 1) * g.inc && g.inc >= 2
  {
    ProbeReaches(hash, g, info, kv, m, pos, k, Home(hash, g, k));
    StartInfoRange(hash, g, k);
    var e := pos[k] - Home(hash, g, k);
    assert (e - d) * g.inc >= 0;
    assert e * g.inc == d * g.inc + (e - d) * g.inc;
  }

  /** In no table does a stretch of homes have 127 keys more than it has homes. */
  lemma NeverOvercrowded<K(!new), V(!new)>(hash: (K, nat) -> nat, g: Layout, info: seq<int>, kv: seq<Node<K, V>>,
                                     m: map<K, V>, pos: map<K, nat>)
    requires Inv(hash, g, info, kv, m, pos) && forall i :: 0 <= i < g.n ==> info[i] <= 255
    ensures !Crowded(hash, g.mask, g.mult, m.Keys, 128)
  {
    if Crowded(hash, g.mask, g.mult, m.Keys, 128) {
      var a: nat, b: nat :| a <= b && |HomedIn(hash, g.mask, g.mult, m.Keys, a, b)| >= b - a + 128;
      var k := PushedFar(hash, g, info, kv, m, pos, a, b, 128);
      FarByte(hash, g, info, kv, m, pos, k, 127);
    }
  }

  /** With 126 more some byte is used up, for good. */
  lemma CrowdedByte<K(!new), V(!new)>(hash: (K, nat) -> nat, g: Layout, info: seq<int>, kv: seq<Node<K, V>>,
                                m: map<K, V>, pos: map<K, nat>) returns (i: nat)
    requires Inv(hash, g, info, kv, m, pos) && forall i :: 0 <= i < g.n ==> info[i] <= 255
    requires Crowded(hash, g.mask, g.mult, m.Keys, 127)
    ensures i < g.n <= |info| && info[i] + g.inc > 255 && g.inc == 2
  {
    var a: nat, b: nat :| a <= b && |HomedIn(hash, g.mask, g.mult, m.Keys, a, b)| >= b - a + 127;
    var k := PushedFar(hash, g, info, kv, m, pos, a, b, 127);
    FarByte(hash, g, info, kv, m, pos, k, 126);
    i := pos[k];
  }

  // ---- and only then ---------------------------------------------------------------------------------------

  lemma {:induction false} RunStart(info: seq<int>, p: nat) returns (a: nat)
    requires p < |info| && info[p] != 0
    ensures a <= p && (forall i :: a <= i <= p ==> info[i] != 0) && (a == 0 || info[a - 1] == 0)
    decreases p
  {
    if p == 0 || info[p - 1] == 0 {
      a := p;
    } else {
      a := RunStart(info, p - 1);
    }
  }

  lemma Distribute(i: int, x: int, y: int, inc: int)
    ensures (i + 1 - y) * inc == (i - x) * inc + inc + (x - y) * inc
  {
  }

  lemma LessThanOne(d: int, n: nat)
    requires d * n < n
    ensures d <= 0
  {
    if d >= 1 {
      TimesAtLeast(d, n);
    }
  }

  /** With start infos that differ by less than an increment a byte that grows by at most one means a later home. */
  lemma NoOvertaking(s: nat, t: nat, i: nat, x: nat, y: nat, inc: nat)
    requires inc <= s < 2 * inc && inc <= t < 2 * inc
    requires t + (i + 1 - y) * inc <= s + (i - x) * inc + inc
    ensures x <= y
  {
    Distribute(i, x, y, inc);
    LessThanOne(x - y, inc);
  }

  lemma HomeRises<K, V(!new)>(hash: (K, nat) -> nat, g: Layout, info: seq<int>, kv: seq<Node<K, V>>,
                              m: map<K, V>, pos: map<K, nat>, i: nat)
    requires Inv(hash, g, info, kv, m, pos) && i + 1 < g.n && info[i] != 0 && info[i + 1] != 0
    ensures kv[i].Node? && kv[i + 1].Node? && Home(hash, g, kv[i].key) <= Home(hash, g, kv[i + 1].key)
  {
    hide Home, StartInfo, GoodLayout;
    assert SlotOk(hash, g, info, kv, i) && SlotOk(hash, g, info, kv, i + 1) && StepOk(g, info, i);
    var j, k := kv[i].key, kv[i + 1].key;
    StartInfoRange(hash, g, j);
    StartInfoRange(hash, g, k);
    NoOvertaking(StartInfo(hash, g, j), StartInfo(hash, g, k), i, Home(hash, g, j), Home(hash, g, k), g.inc);
  }

  lemma {:induction false} HomesRise<K, V(!new)>(hash: (K, nat) -> nat, g: Layout, info: seq<int>, kv: seq<Node<K, V>>,
                                                 m: map<K, V>, pos: map<K, nat>, i: nat, p: nat)
    requires Inv(hash, g, info, kv, m, pos) && i <= p < g.n && forall j :: i <= j <= p ==> info[j] != 0
    ensures kv[i].Node? && kv[p].Node? && Home(hash, g, kv[i].key) <= Home(hash, g, kv[p].key)
    decreases p - i
  {
    if i < p {
      HomeRises(hash, g, info, kv, m, pos, i);
      HomesRise(hash, g, info, kv, m, pos, i + 1, p);
    } else {
      assert SlotOk(hash, g, info, kv, i);
    }
  }

  /** The first key of a run is at home. */
  lemma RunAtHome<K, V(!new)>(hash: (K, nat) -> nat, g: Layout, info: seq<int>, kv: seq<Node<K, V>>,
                              m: map<K, V>, pos: map<K, nat>, a: nat)
    requires Inv(hash, g, info, kv, m, pos) && a < g.n && info[a] != 0 && (a == 0 || info[a - 1] == 0)
    ensures kv[a].Node? && Home(hash, g, kv[a].key) == a
  {
    assert SlotOk(hash, g, info, kv, a) && (a > 0 ==> StepOk(g, info, a - 1));
    InfoAtGrows(hash, g, kv[a].key, a);
  }

  lemma ByteDistance<K, V(!new)>(hash: (K, nat) -> nat, g: Layout, info: seq<int>, kv: seq<Node<K, V>>,
                                 m: map<K, V>, pos: map<K, nat>, p: nat)
    requires Inv(hash, g, info, kv, m, pos) && p < g.n && g.inc == 2 && info[p] + 2 > 255
    ensures kv[p].Node? && Home(hash, g, kv[p].key) + 126 <= p
  {
    assert SlotOk(hash, g, info, kv, p);
    StartInfoRange(hash, g, kv[p].key);
  }

  /** The keys of a run have homes from its start to that of its last key. */
  lemma RunHomes<K, V(!new)>(hash: (K, nat) -> nat, g: Layout, info: seq<int>, kv: seq<Node<K, V>>,
                             m: map<K, V>, pos: map<K, nat>, a: nat, p: nat, k: K)
    requires Inv(hash, g, info, kv, m, pos) && a <= p < g.n && (forall i :: a <= i <= p ==> info[i] != 0)
    requires (a == 0 || info[a - 1] == 0) && (forall i :: a <= i <= p ==> kv[i].Node?) && k in RunKeys(kv, a, p + 1)
    ensures a <= Home(hash, g, k) <= Home(hash, g, kv[p].key)
  {
    hide Home, SlotOk, StepOk, GoodLayout;
    RunMember(kv, a, p + 1, k);
    var i: nat :| a <= i < p + 1 && kv[i].key == k;
    RunAtHome(hash, g, info, kv, m, pos, a);
    HomesRise(hash, g, info, kv, m, pos, a, i);
    HomesRise(hash, g, info, kv, m, pos, i, p);
  }

  /** A byte that is used up for good means that the homes up to its key's are crowded. */
  lemma FullByteCrowds<K(!new), V(!new)>(hash: (K, nat) -> nat, g: Layout, info: seq<int>, kv: seq<Node<K, V>>,
                                         m: map<K, V>, pos: map<K, nat>, p: nat)
    requires Inv(hash, g, info, kv, m, pos) && p < g.n && g.inc == 2 && info[p] + 2 > 255
    ensures Crowded(hash, g.mask, g.mult, m.Keys, 127)
  {
    hide Home, HomeOf, SlotOk, StepOk, GoodLayout, RunKeys;
    ByteDistance(hash, g, info, kv, m, pos, p);
    var a := RunStart(info, p);
    RunNodes(hash, g, info, kv, m, pos, a, p + 1);
    RunKeysCount(info, kv, g.n, m, pos, a, p + 1);
    var run, b := RunKeys(kv, a, p + 1), Home(hash, g, kv[p].key);
    forall k | k in run ensures k in m && a <= Home(hash, g, k) <= b {
      RunHomes(hash, g, info, kv, m, pos, a, p, k);
    }
    assert kv[p].key in run by {
      RunHas(kv, a, p + 1);
    }
    CrowdedBy(hash, g, m.Keys, run, a, b, 127);
  }

  lemma RunHas<K, V>(kv: seq<Node<K, V>>, a: nat, b: nat)
    requires a < b <= |kv| && forall i :: a <= i < b ==> kv[i].Node?
    ensures kv[b - 1].key in RunKeys(kv, a, b)
  {
  }

  lemma RunNodes<K, V(!new)>(hash: (K, nat) -> nat, g: Layout, info: seq<int>, kv: seq<Node<K, V>>,
                             m: map<K, V>, pos: map<K, nat>, a: nat, b: nat)
    requires Inv(hash, g, info, kv, m, pos) && a <= b <= g.n && forall i :: a <= i < b ==> info[i] != 0
    ensures |kv| == g.n <= |info| && Holds(info, kv, g.n, m, pos) && forall i :: a <= i < b ==> kv[i].Node?
  {
  }

  lemma CrowdedBy<K(!new)>(hash: (K, nat) -> nat, g: Layout, keys: set<K>, s: set<K>, a: nat, b: nat, limit: nat)
    requires s != {} && s <= keys && |s| >= b - a + limit && forall k :: k in s ==> a <= Home(hash, g, k) <= b
    ensures Crowded(hash, g.mask, g.mult, keys, limit)
  {
    assert forall k :: k in s ==> k in HomedIn(hash, g.mask, g.mult, keys, a, b);
    SubsetCount(s, HomedIn(hash, g.mask, g.mult, keys, a, b));
    var k :| k in s;
    assert a <= b;
  }

  lemma {:induction false} RunMember<K, V>(kv: seq<Node<K, V>>, a: nat, b: nat, k: K)
    requires a <= b <= |kv| && (forall i :: a <= i < b ==> kv[i].Node?) && k in RunKeys(kv, a, b)
    ensures exists i: nat :: a <= i < b && kv[i].key == k
    decreases b - a
  {
    if k != kv[b - 1].key {
      RunMember(kv, a, b - 1, k);
    }
  }
}
