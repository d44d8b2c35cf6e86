/** What the moves of a robin-hood table do to its slots: making room for a key by shifting a run up, closing the
    gap an erased key leaves, and halving the increment. Each keeps the run order and changes the contents by
    exactly the binding it is for. */
module RobinHoodMoves {
  import opened Counting
  import opened RobinHoodSlots

  // ---- room for one more -----------------------------------------------------------------------------------

  /** The keys of the slots from a to b. */
  ghost function RunKeys<K, V>(kv: seq<Node<K, V>>, a: nat, b: nat): set<K>
    requires a <= b <= |kv| && forall i :: a <= i < b ==> kv[i].Node?
  {
    if a == b then {} else RunKeys(kv, a, b - 1) + {kv[b - 1].key}
  }

  lemma {:induction false} RunKeysCount<K, V(!new)>(info: seq<int>, kv: seq<Node<K, V>>, n: nat, m: map<K, V>,
                                                    pos: map<K, nat>, a: nat, b: nat)
    requires Holds(info, kv, n, m, pos) && a <= b <= n && forall i :: a <= i < b ==> info[i] != 0
    ensures ghost var s := RunKeys(kv, a, b);
      |s| == b - a && s <= m.Keys && forall k :: k in s ==> a <= pos[k] < b
    decreases b - a
  {
    if a < b {
      RunKeysCount(info, kv, n, m, pos, a, b - 1);
      assert kv[b - 1].key in m && pos[kv[b - 1].key] == b - 1;
    }
  }

  /** A run of occupied slots is no longer than the table has elements. */
  lemma RunLength<K, V(!new)>(info: seq<int>, kv: seq<Node<K, V>>, n: nat, m: map<K, V>, pos: map<K, nat>, a: nat,
                              b: nat)
    requires Holds(info, kv, n, m, pos) && a <= b <= n && forall i :: a <= i < b ==> info[i] != 0
    ensures b - a <= |m|
  {
    RunKeysCount(info, kv, n, m, pos, a, b);
    SubsetCount(RunKeys(kv, a, b), m.Keys);
    assert |m.Keys| == |m|;
  }

  /** The overflow slots behind the last home are enough: while fewer than maxElements keys are stored and every
      info byte is a byte, some slot from any home on is vacant. */
  lemma VacantSlot<K, V(!new)>(hash: (K, nat) -> nat, g: Layout, info: seq<int>, kv: seq<Node<K, V>>,
                               m: map<K, V>, pos: map<K, nat>, maxElements: nat) returns (e: nat)
    requires Inv(hash, g, info, kv, m, pos)
    requires g.n == g.mask + 1 + (if maxElements < 255 then maxElements else 255) && |m| < maxElements
    requires forall i :: 0 <= i < g.n ==> info[i] <= 255
    ensures g.mask <= e < g.n && info[e] == 0
  {
    if forall i :: g.mask <= i < g.n ==> info[i] != 0 {
      var last := g.n - 1;
      assert SlotOk(hash, g, info, kv, last);
      StartInfoRange(hash, g, kv[last].key);
      InfoAtGrows(hash, g, kv[last].key, last);
      RunLength(info, kv, g.n, m, pos, g.mask, g.n);
      assert false;
    } else {
      e :| g.mask <= e < g.n && info[e] == 0;
    }
  }

  // ---- shifting up -----------------------------------------------------------------------------------------

  /** The info bytes after slots p to e - 1 have moved up by one and slot p has got byte x. */
  function UpInfo(g: Layout, info: seq<int>, p: nat, e: nat, x: int): (r: seq<int>)
    requires p <= e < |info|
  {
    seq(|info|, i requires 0 <= i < |info| =>
      if i == p then x else if p < i <= e then info[i - 1] + g.inc else info[i])
  }

  function UpNodes<K, V>(kv: seq<Node<K, V>>, p: nat, e: nat, node: Node<K, V>): (r: seq<Node<K, V>>)
    requires p <= e < |kv|
  {
    seq(|kv|, i requires 0 <= i < |kv| =>
      if i == p then node else if p < i <= e then kv[i - 1] else kv[i])
  }

  ghost function UpPos<K, V>(m: map<K, V>, pos: map<K, nat>, p: nat, e: nat, k: K): map<K, nat>
    requires m.Keys == pos.Keys
  {
    map j | j in m.Keys + {k} :: if j == k then p else if p <= pos[j] < e then pos[j] + 1 else pos[j]
  }

  /** Slot p is the place for a new key k: the probe came past larger or equal bytes and its info is larger than
      the byte here; e is the next vacant slot. */
  ghost predicate Insertable<K, V(!new)>(hash: (K, nat) -> nat, g: Layout, info: seq<int>, kv: seq<Node<K, V>>,
                                         m: map<K, V>, pos: map<K, nat>, k: K, p: nat, e: nat)
  {
    Inv(hash, g, info, kv, m, pos) && k !in m && Home(hash, g, k) <= p <= e < g.n &&
    info[e] == 0 && (forall i :: p <= i < e ==> info[i] != 0) &&
    InfoAt(hash, g, k, p) > info[p] && (p > Home(hash, g, k) ==> InfoAt(hash, g, k, p - 1) <= info[p - 1])
  }

  lemma UpSlot<K, V(!new)>(hash: (K, nat) -> nat, g: Layout, info: seq<int>, kv: seq<Node<K, V>>,
                           m: map<K, V>, pos: map<K, nat>, k: K, v: V, p: nat, e: nat, i: nat)
    requires Insertable(hash, g, info, kv, m, pos, k, p, e) && i < g.n
    ensures SlotOk(hash, g, UpInfo(g, info, p, e, InfoAt(hash, g, k, p)), UpNodes(kv, p, e, Node(k, v)), i)
  {
    if p < i <= e {
      assert SlotOk(hash, g, info, kv, i - 1);
      InfoAtStep(hash, g, kv[i - 1].key, i - 1);
    } else if i != p {
      assert SlotOk(hash, g, info, kv, i);
    }
    hide InfoAt, Home;
  }

  /** The run order after shifting up, from the run order before and the two neighbours of the new byte x. */
  lemma UpStepOk(g: Layout, info: seq<int>, p: nat, e: nat, x: int, i: nat)
    requires p <= e && e + 1 < |info| && i + 1 < |info| && g.inc >= 2
    requires StepOk(g, info, i) && (i > 0 ==> StepOk(g, info, i - 1))
    requires info[e] == 0 && forall i :: p <= i < e ==> info[i] != 0
    requires forall i {:trigger info[i]} :: 0 <= i <= e ==> info[i] == 0 || info[i] >= g.inc
    requires x >= g.inc && x > info[p] &&
      (p > 0 ==> x <= if info[p - 1] == 0 then 2 * g.inc - 1 else info[p - 1] + g.inc)
    ensures StepOk(g, UpInfo(g, info, p, e, x), i)
  {
    var r := UpInfo(g, info, p, e, x);
    if i < p || e < i {
      assert r[i] == info[i] && r[i + 1] == if i + 1 == p then x else info[i + 1];
    } else if i < e {
      assert r[i] == if i == p then x else info[i - 1] + g.inc;
      assert r[i + 1] == info[i] + g.inc;
    } else {
      assert r[i] == (if i == p then x else info[i - 1] + g.inc) && r[i + 1] == info[i + 1];
    }
  }

  lemma UpStep<K, V(!new)>(hash: (K, nat) -> nat, g: Layout, info: seq<int>, kv: seq<Node<K, V>>,
                           m: map<K, V>, pos: map<K, nat>, k: K, p: nat, e: nat, i: nat)
    requires Insertable(hash, g, info, kv, m, pos, k, p, e) && i < g.n
    ensures StepOk(g, UpInfo(g, info, p, e, InfoAt(hash, g, k, p)), i)
  {
    StartInfoRange(hash, g, k);
    InfoAtStep(hash, g, k, p - 1);
    InfoAtGrows(hash, g, k, p);
    assert StepOk(g, info, i) && (i > 0 ==> StepOk(g, info, i - 1));
    OccupiedBytes(hash, g, info, kv);
    hide InfoAt, StartInfo, SlotOk, StepOk;
    UpStepOk(g, info, p, e, InfoAt(hash, g, k, p), i);
  }

  lemma OccupiedBytes<K, V>(hash: (K, nat) -> nat, g: Layout, info: seq<int>, kv: seq<Node<K, V>>)
    requires GoodLayout(g) && Ordered(hash, g, info, kv)
    ensures forall i {:trigger info[i]} :: 0 <= i < g.n ==> info[i] == 0 || info[i] >= g.inc
  {
    forall i | 0 <= i < g.n ensures info[i] == 0 || info[i] >= g.inc {
      assert SlotOk(hash, g, info, kv, i);
      if info[i] != 0 {
        InfoAtGrows(hash, g, kv[i].key, i);
      }
    }
  }

  lemma UpHolds<K, V(!new)>(hash: (K, nat) -> nat, g: Layout, info: seq<int>, kv: seq<Node<K, V>>,
                            m: map<K, V>, pos: map<K, nat>, k: K, v: V, p: nat, e: nat, x: nat)
    requires Insertable(hash, g, info, kv, m, pos, k, p, e) && x > 0
    ensures Holds(UpInfo(g, info, p, e, x), UpNodes(kv, p, e, Node(k, v)), g.n, m[k := v], UpPos(m, pos, p, e, k))
  {
    OccupiedBytes(hash, g, info, kv);
    hide InfoAt, Home, Ordered;
    var info', kv' := UpInfo(g, info, p, e, x), UpNodes(kv, p, e, Node(k, v));
    var m', pos' := m[k := v], UpPos(m, pos, p, e, k);
    forall i | 0 <= i < g.n && info'[i] != 0 ensures kv'[i].Node? && kv'[i].key in m' && pos'[kv'[i].key] == i {
      if p < i <= e {
        assert info[i - 1] != 0 && kv[i - 1].key in m && pos[kv[i - 1].key] == i - 1;
      } else if i != p {
        assert info[i] != 0 && kv[i].key in m && pos[kv[i].key] == i;
      }
    }
    forall j | j in m' ensures pos'[j] < g.n && info'[pos'[j]] != 0 && kv'[pos'[j]] == Node(j, m'[j]) {
      if j != k {
        assert j in m && info[pos[j]] != 0;
      }
    }
  }

  /** Inserting by shifting up keeps the invariant and adds exactly one binding. */
  lemma InsertKeepsInv<K, V(!new)>(hash: (K, nat) -> nat, g: Layout, info: seq<int>, kv: seq<Node<K, V>>,
                                   m: map<K, V>, pos: map<K, nat>, k: K, v: V, p: nat, e: nat)
    requires Insertable(hash, g, info, kv, m, pos, k, p, e)
    ensures InfoAt(hash, g, k, p) >= 2
    ensures Inv(hash, g, UpInfo(g, info, p, e, InfoAt(hash, g, k, p)), UpNodes(kv, p, e, Node(k, v)),
                m[k := v], UpPos(m, pos, p, e, k))
  {
    InfoAtGrows(hash, g, k, p);
    var x := InfoAt(hash, g, k, p);
    StartInfoRange(hash, g, k);
    InfoAtStep(hash, g, k, p);
    assert p == 0 ==> x < 2 * g.inc;
    UpHolds(hash, g, info, kv, m, pos, k, v, p, e, x);
    forall i | 0 <= i < g.n ensures SlotOk(hash, g, UpInfo(g, info, p, e, x), UpNodes(kv, p, e, Node(k, v)), i) {
      UpSlot(hash, g, info, kv, m, pos, k, v, p, e, i);
    }
    forall i | 0 <= i < g.n ensures StepOk(g, UpInfo(g, info, p, e, x), i) {
      UpStep(hash, g, info, kv, m, pos, k, p, e, i);
    }
    hide InfoAt, Home, StartInfo, StepOk, SlotOk, Holds;
  }

  // ---- shifting down ---------------------------------------------------------------------------------------

  function DownInfo(g: Layout, info: seq<int>, d: nat, f: nat): (r: seq<int>)
    requires d <= f && f + 1 < |info|
  {
    seq(|info|, i requires 0 <= i < |info| =>
      if i == f then 0 else if d <= i < f then info[i + 1] - g.inc else info[i])
  }

  function DownNodes<K, V>(kv: seq<Node<K, V>>, d: nat, f: nat): (r: seq<Node<K, V>>)
    requires d <= f < |kv|
  {
    seq(|kv|, i requires 0 <= i < |kv| =>
      if i == f then Vacant else if d <= i < f then kv[i + 1] else kv[i])
  }

  ghost function DownPos<K>(pos: map<K, nat>, d: nat, f: nat, k: K): map<K, nat> {
    map j | j in pos && j != k :: if d < pos[j] <= f then (pos[j] - 1) as nat else pos[j]
  }

  /** Slots d + 1 to f hold keys away from home, slot f + 1 does not: the keys that may move down by one. */
  ghost predicate Erasable<K, V(!new)>(hash: (K, nat) -> nat, g: Layout, info: seq<int>, kv: seq<Node<K, V>>,
                                       m: map<K, V>, pos: map<K, nat>, d: nat, f: nat)
  {
    Inv(hash, g, info, kv, m, pos) && d <= f < g.n && info[d] != 0 &&
    (forall i :: d < i <= f ==> info[i] >= 2 * g.inc) && info[f + 1] < 2 * g.inc
  }

  lemma DownSlot<K, V(!new)>(hash: (K, nat) -> nat, g: Layout, info: seq<int>, kv: seq<Node<K, V>>,
                             m: map<K, V>, pos: map<K, nat>, d: nat, f: nat, i: nat)
    requires Erasable(hash, g, info, kv, m, pos, d, f) && i < g.n
    ensures SlotOk(hash, g, DownInfo(g, info, d, f), DownNodes(kv, d, f), i)
  {
    if d <= i < f {
      assert SlotOk(hash, g, info, kv, i + 1);
      InfoAtStep(hash, g, kv[i + 1].key, i);
      StartInfoRange(hash, g, kv[i + 1].key);
      assert Home(hash, g, kv[i + 1].key) <= i;
    } else if i != f {
      assert SlotOk(hash, g, info, kv, i);
    }
    hide InfoAt, Home, StartInfo;
  }

  lemma DownHolds<K, V(!new)>(hash: (K, nat) -> nat, g: Layout, info: seq<int>, kv: seq<Node<K, V>>,
                              m: map<K, V>, pos: map<K, nat>, d: nat, f: nat)
    requires Erasable(hash, g, info, kv, m, pos, d, f)
    ensures kv[d].Node? && kv[d].key in m
    ensures Holds(DownInfo(g, info, d, f), DownNodes(kv, d, f), g.n, m - {kv[d].key}, DownPos(pos, d, f, kv[d].key))
  {
    assert f + 1 < |info|;
    hide InfoAt, Home, Ordered;
    var k := kv[d].key;
    var info', kv', m', pos' := DownInfo(g, info, d, f), DownNodes(kv, d, f), m - {k}, DownPos(pos, d, f, k);
    assert pos[k] == d;
    forall i | 0 <= i < g.n && info'[i] != 0 ensures kv'[i].Node? && kv'[i].key in m' && pos'[kv'[i].key] == i {
      var from := if d <= i < f then i + 1 else i;
      assert info[from] != 0 && kv'[i] == kv[from] && pos[kv[from].key] == from && from != d;
    }
    forall j | j in m' ensures pos'[j] < g.n && info'[pos'[j]] != 0 && kv'[pos'[j]] == Node(j, m'[j]) {
      assert j in m && info[pos[j]] != 0 && pos[j] != d && kv[pos[j]] == Node(j, m[j]);
    }
  }

  lemma DownStep<K, V(!new)>(hash: (K, nat) -> nat, g: Layout, info: seq<int>, kv: seq<Node<K, V>>,
                             m: map<K, V>, pos: map<K, nat>, d: nat, f: nat, i: nat)
    requires Erasable(hash, g, info, kv, m, pos, d, f) && i < g.n
    ensures StepOk(g, DownInfo(g, info, d, f), i)
  {
    var r := DownInfo(g, info, d, f);
    OccupiedBytes(hash, g, info, kv);
    hide SlotOk, InfoAt;
    assert StepOk(g, info, i);
    if d <= i < f {
      assert StepOk(g, info, i + 1);
      assert r[i] == info[i + 1] - g.inc && r[i + 1] == if i + 1 == f then 0 else info[i + 2] - g.inc;
    } else if i == f {
      assert r[i] == 0 && r[i + 1] == info[i + 1];
    } else {
      assert r[i] == info[i];
      if i + 1 == d {
        assert StepOk(g, info, d);
        assert r[d] == if d == f then 0 else info[d + 1] - g.inc;
      } else {
        assert r[i + 1] == info[i + 1];
      }
    }
  }

  lemma DownStart<K, V(!new)>(hash: (K, nat) -> nat, g: Layout, info: seq<int>, kv: seq<Node<K, V>>,
                              m: map<K, V>, pos: map<K, nat>, d: nat, f: nat)
    requires Erasable(hash, g, info, kv, m, pos, d, f)
    ensures DownInfo(g, info, d, f)[0] < 2 * g.inc
    ensures forall i :: 0 <= i < g.n ==> DownInfo(g, info, d, f)[i] <= info[i]
  {
    forall i | 0 <= i < g.n ensures DownInfo(g, info, d, f)[i] <= info[i] {
      assert StepOk(g, info, i);
      assert SlotOk(hash, g, info, kv, i);
      if info[i] != 0 {
        InfoAtGrows(hash, g, kv[i].key, i);
      }
    }
  }

  /** Erasing by shifting down keeps the invariant and removes exactly one binding. */
  lemma EraseKeepsInv<K, V(!new)>(hash: (K, nat) -> nat, g: Layout, info: seq<int>, kv: seq<Node<K, V>>,
                                  m: map<K, V>, pos: map<K, nat>, d: nat, f: nat)
    requires Erasable(hash, g, info, kv, m, pos, d, f)
    ensures kv[d].Node? && kv[d].key in m
    ensures forall i :: 0 <= i < g.n ==> DownInfo(g, info, d, f)[i] <= info[i]
    ensures Inv(hash, g, DownInfo(g, info, d, f), DownNodes(kv, d, f), m - {kv[d].key}, DownPos(pos, d, f, kv[d].key))
  {
    DownStart(hash, g, info, kv, m, pos, d, f);
    DownHolds(hash, g, info, kv, m, pos, d, f);
    var info', kv' := DownInfo(g, info, d, f), DownNodes(kv, d, f);
    forall i | 0 <= i < g.n ensures SlotOk(hash, g, info', kv', i) {
      DownSlot(hash, g, info, kv, m, pos, d, f, i);
    }
    forall i | 0 <= i < g.n ensures StepOk(g, info', i) {
      DownStep(hash, g, info, kv, m, pos, d, f, i);
    }
    hide InfoAt, Home, StepOk, SlotOk, Holds;
  }

  lemma ErasableAt<K, V(!new)>(hash: (K, nat) -> nat, g: Layout, info: seq<int>, kv: seq<Node<K, V>>,
                               m: map<K, V>, pos: map<K, nat>, k: K, f: nat)
    requires Inv(hash, g, info, kv, m, pos) && k in m && pos[k] <= f < g.n
    requires (forall i :: pos[k] < i <= f ==> info[i] >= 2 * g.inc) && info[f + 1] < 2 * g.inc
    ensures k in pos && |info| == g.n + PADDING && |kv| == g.n
    ensures Erasable(hash, g, info, kv, m, pos, pos[k], f) && kv[pos[k]] == Node(k, m[k])
    ensures |DownInfo(g, info, pos[k], f)| == |info| && DownInfo(g, info, pos[k], f)[g.n] == info[g.n]
  {
  }

  // ---- halving ---------------------------------------------------------------------------------------------

  function HalvedLayout(g: Layout): Layout {
    g.(inc := g.inc / 2, shift := g.shift + 1)
  }

  function HalvedInfo(g: Layout, info: seq<int>): (r: seq<int>) {
    seq(|info|, i requires 0 <= i < |info| => if i == g.n then 1 else info[i] / 2)
  }

  lemma HalvedInfoAt<K>(hash: (K, nat) -> nat, g: Layout, k: K, i: int)
    requires GoodLayout(g) && g.inc > 2
    ensures InfoAt(hash, HalvedLayout(g), k, i) == InfoAt(hash, g, k, i) / 2
    ensures Home(hash, HalvedLayout(g), k) == Home(hash, g, k)
  {
    var d, half := i - Home(hash, g, k), g.inc / 2;
    assert d * g.inc == 2 * (d * half) by {
      assert g.inc == 2 * half;
    }
  }

  /** Halving the increment and all info bytes keeps the invariant and the contents. */
  lemma HalvingKeepsInv<K, V(!new)>(hash: (K, nat) -> nat, g: Layout, info: seq<int>, kv: seq<Node<K, V>>,
                                    m: map<K, V>, pos: map<K, nat>)
    requires Inv(hash, g, info, kv, m, pos) && g.inc > 2
    ensures Inv(hash, HalvedLayout(g), HalvedInfo(g, info), kv, m, pos)
    ensures forall i :: 0 <= i < g.n && info[i] <= 255 ==> HalvedInfo(g, info)[i] + HalvedLayout(g).inc <= 255
  {
    var g', info' := HalvedLayout(g), HalvedInfo(g, info);
    forall i | 0 <= i < g.n ensures SlotOk(hash, g', info', kv, i) && (info'[i] == 0 <==> info[i] == 0) {
      assert SlotOk(hash, g, info, kv, i);
      if info[i] != 0 {
        HalvedInfoAt(hash, g, kv[i].key, i);
        InfoAtGrows(hash, g, kv[i].key, i);
      }
    }
    forall i | 0 <= i < g.n ensures StepOk(g', info', i) {
      assert StepOk(g, info, i);
    }
    hide InfoAt, Home, StartInfo, SlotOk;
  }
}
