/** The slots of a robin-hood table. Slot i holds a key whose home is at or before i; its info byte is the key's
    start info plus one increment for each slot it is away from home. Along a run of occupied slots the info byte
    grows by at most one increment per slot, so a probe can stop as soon as its own info is the larger one. */
module RobinHoodSlots {

  datatype Node<K, V> = Vacant | Node(key: K, val: V)

  /** n slots, of which mask + 1 are homes; the info bytes count in steps of inc and leave the low bits of the
      hash, shifted right by shift, in between. */
  datatype Layout = Layout(n: nat, mask: nat, inc: nat, shift: nat, mult: nat)

  const INITIAL_INFO_INC: nat := 32
  const INITIAL_INFO_HASH_SHIFT: nat := 0
  /** The sentinel byte and its padding. */
  const PADDING: nat := 8

  function ShiftRight(x: nat, s: nat): nat {
    if s == 0 then x else ShiftRight(x, s - 1) / 2
  }

  ghost predicate GoodLayout(g: Layout) {
    g.n > g.mask && g.inc >= 2 &&
    ((g.inc == 32 && g.shift == 0) || (g.inc == 16 && g.shift == 1) || (g.inc == 8 && g.shift == 2) ||
     (g.inc == 4 && g.shift == 3) || (g.inc == 2 && g.shift == 4))
  }

  /** keyToIdx: the index half. */
  function Home<K>(hash: (K, nat) -> nat, g: Layout, k: K): nat {
    HomeOf(hash, g.mask, g.mult, k)
  }

  function HomeOf<K>(hash: (K, nat) -> nat, mask: nat, mult: nat, k: K): (h: nat)
    ensures h <= mask
  {
    hash(k, mult) / 32 % (mask + 1)
  }

  /** keyToIdx: the info half. */
  function StartInfo<K>(hash: (K, nat) -> nat, g: Layout, k: K): nat {
    g.inc + ShiftRight(hash(k, g.mult) % 32, g.shift)
  }

  /** The info byte key k has at slot i. */
  function InfoAt<K>(hash: (K, nat) -> nat, g: Layout, k: K, i: int): int {
    StartInfo(hash, g, k) + (i - Home(hash, g, k)) * g.inc
  }

  lemma StartInfoRange<K>(hash: (K, nat) -> nat, g: Layout, k: K)
    requires GoodLayout(g)
    ensures g.inc <= StartInfo(hash, g, k) < 2 * g.inc
    ensures Home(hash, g, k) <= g.mask
  {
    var x := hash(k, g.mult) % 32;
    assert ShiftRight(x, 0) == x;
    assert ShiftRight(x, 1) == x / 2;
    assert ShiftRight(x, 2) == x / 2 / 2;
    assert ShiftRight(x, 3) == x / 2 / 2 / 2;
    assert ShiftRight(x, 4) == x / 2 / 2 / 2 / 2;
  }

  lemma InfoAtStep<K>(hash: (K, nat) -> nat, g: Layout, k: K, i: int)
    ensures InfoAt(hash, g, k, i + 1) == InfoAt(hash, g, k, i) + g.inc
    ensures InfoAt(hash, g, k, Home(hash, g, k)) == StartInfo(hash, g, k)
  {
    var d, inc := i - Home(hash, g, k), g.inc;
    assert (d + 1) * inc == d * inc + inc;
  }

  lemma InfoAtGrows<K>(hash: (K, nat) -> nat, g: Layout, k: K, i: int)
    requires GoodLayout(g) && i >= Home(hash, g, k)
    ensures InfoAt(hash, g, k, i) >= g.inc + (i - Home(hash, g, k)) * 2
    ensures i > Home(hash, g, k) ==> InfoAt(hash, g, k, i) >= 2 * g.inc
  {
    StartInfoRange(hash, g, k);
    var d, inc := i - Home(hash, g, k), g.inc;
    assert d * inc >= d * 2;
    if d > 0 {
      assert d * inc >= inc;
    }
  }

  // ---- the invariant ---------------------------------------------------------------------------------------

  ghost predicate SlotOk<K, V>(hash: (K, nat) -> nat, g: Layout, info: seq<int>, kv: seq<Node<K, V>>, i: nat)
    requires i < |info| && i < |kv|
  {
    info[i] >= 0 &&
    (info[i] != 0 ==> kv[i].Node? && Home(hash, g, kv[i].key) <= i && info[i] == InfoAt(hash, g, kv[i].key, i))
  }

  /** The run order: from one slot to the next the info byte grows by at most one increment, and after a vacant
      slot comes a vacant one or a key at home. */
  ghost predicate StepOk(g: Layout, info: seq<int>, i: nat)
    requires i + 1 < |info|
  {
    info[i + 1] <= if info[i] == 0 then 2 * g.inc - 1 else info[i] + g.inc
  }

  ghost predicate Ordered<K, V>(hash: (K, nat) -> nat, g: Layout, info: seq<int>, kv: seq<Node<K, V>>) {
    |info| == g.n + PADDING && |kv| == g.n &&
    (forall i :: 0 <= i < g.n ==> SlotOk(hash, g, info, kv, i)) &&
    info[0] < 2 * g.inc && (forall i :: 0 <= i < g.n ==> StepOk(g, info, i)) &&
    0 <= info[g.n] <= 1 && (forall i :: g.n < i < |info| ==> info[i] == 0)
  }

  /** The slots hold exactly the bindings of m; pos says where. */
  ghost predicate Holds<K, V(!new)>(info: seq<int>, kv: seq<Node<K, V>>, n: nat, m: map<K, V>, pos: map<K, nat>) {
    n <= |info| && n == |kv| && pos.Keys == m.Keys &&
    (forall k :: k in m ==> pos[k] < n && info[pos[k]] != 0 && kv[pos[k]] == Node(k, m[k])) &&
    (forall i :: 0 <= i < n && info[i] != 0 ==> kv[i].Node? && kv[i].key in m && pos[kv[i].key] == i)
  }

  ghost predicate Inv<K, V(!new)>(hash: (K, nat) -> nat, g: Layout, info: seq<int>, kv: seq<Node<K, V>>,
                                  m: map<K, V>, pos: map<K, nat>)
  {
    GoodLayout(g) && Ordered(hash, g, info, kv) && Holds(info, kv, g.n, m, pos)
  }

  // ---- probing ---------------------------------------------------------------------------------------------

  /** Between a key's home and a slot where its info would not exceed the byte found, no byte is smaller than its
      info: the run order lets a probe for the key come that far. */
  lemma {:induction false} RunBefore<K, V>(hash: (K, nat) -> nat, g: Layout, info: seq<int>, kv: seq<Node<K, V>>,
                                           k: K, i: nat, j: nat)
    requires GoodLayout(g) && Ordered(hash, g, info, kv)
    requires Home(hash, g, k) <= i <= j <= g.n && InfoAt(hash, g, k, j) <= info[j]
    ensures InfoAt(hash, g, k, i) <= info[i]
    decreases j - i
  {
    if i < j {
      assert StepOk(g, info, j - 1);
      InfoAtStep(hash, g, k, j - 1);
      InfoAtGrows(hash, g, k, j);
      RunBefore(hash, g, info, kv, k, i, j - 1);
    }
  }

  /** A key that is in the table is found at its slot, and the probe for it meets no smaller byte before. */
  lemma ProbeReaches<K, V(!new)>(hash: (K, nat) -> nat, g: Layout, info: seq<int>, kv: seq<Node<K, V>>,
                                 m: map<K, V>, pos: map<K, nat>, k: K, i: nat)
    requires Inv(hash, g, info, kv, m, pos) && k in m && Home(hash, g, k) <= i <= g.n
    ensures Home(hash, g, k) <= pos[k] && info[pos[k]] == InfoAt(hash, g, k, pos[k])
    ensures i <= pos[k] ==> InfoAt(hash, g, k, i) <= info[i]
  {
    assert SlotOk(hash, g, info, kv, pos[k]);
    if i <= pos[k] {
      RunBefore(hash, g, info, kv, k, i, pos[k]);
    }
  }

  /** The probe ends inside the table: the sentinel is smaller than any probe's info. */
  lemma ProbeStops<K, V>(hash: (K, nat) -> nat, g: Layout, info: seq<int>, kv: seq<Node<K, V>>, k: K, i: nat)
    requires GoodLayout(g) && Ordered(hash, g, info, kv) && Home(hash, g, k) <= i < |info|
    ensures InfoAt(hash, g, k, i) >= 2 && (i >= g.n ==> InfoAt(hash, g, k, i) > info[i])
  {
    InfoAtGrows(hash, g, k, i);
  }

  /** A probe for key k has come to slot idx with the info it would have there, and has not passed the key. */
  ghost predicate Probing<K, V(!new)>(hash: (K, nat) -> nat, g: Layout, info: seq<int>, kv: seq<Node<K, V>>,
                                      m: map<K, V>, pos: map<K, nat>, k: K, idx: nat, x: int)
  {
    Inv(hash, g, info, kv, m, pos) && Home(hash, g, k) <= idx <= g.n + 1 && x == InfoAt(hash, g, k, idx) &&
    (k in m ==> idx <= pos[k])
  }

  lemma ProbeStart<K, V(!new)>(hash: (K, nat) -> nat, g: Layout, info: seq<int>, kv: seq<Node<K, V>>,
                               m: map<K, V>, pos: map<K, nat>, k: K)
    requires Inv(hash, g, info, kv, m, pos)
    ensures Probing(hash, g, info, kv, m, pos, k, Home(hash, g, k), StartInfo(hash, g, k))
    ensures Home(hash, g, k) < g.n
  {
    StartInfoRange(hash, g, k);
    InfoAtStep(hash, g, k, 0);
    if k in m {
      ProbeReaches(hash, g, info, kv, m, pos, k, Home(hash, g, k));
    }
  }

  /** What the probe can conclude at slot idx: an equal byte means a stored key, the wanted one if it is here; a
      smaller byte means the wanted key is not in the table. */
  lemma ProbeHere<K, V(!new)>(hash: (K, nat) -> nat, g: Layout, info: seq<int>, kv: seq<Node<K, V>>,
                              m: map<K, V>, pos: map<K, nat>, k: K, idx: nat, x: int)
    requires Probing(hash, g, info, kv, m, pos, k, idx, x)
    ensures |info| == g.n + PADDING && |kv| == g.n
    ensures x <= info[idx] ==> idx < g.n && info[idx] != 0 && kv[idx].Node?
    ensures x <= info[idx] && kv[idx].key == k ==> k in m && kv[idx] == Node(k, m[k]) && pos[k] == idx
    ensures x > info[idx] ==> k !in m
    ensures k in m && pos[k] == idx ==> x == info[idx] && kv[idx].key == k
  {
    ProbeStops(hash, g, info, kv, k, idx);
    if k in m {
      ProbeReaches(hash, g, info, kv, m, pos, k, if idx <= g.n then idx else g.n);
    }
    if idx < g.n {
      assert SlotOk(hash, g, info, kv, idx);
    }
  }

  lemma ProbeNext<K, V(!new)>(hash: (K, nat) -> nat, g: Layout, info: seq<int>, kv: seq<Node<K, V>>,
                              m: map<K, V>, pos: map<K, nat>, k: K, idx: nat, x: int)
    requires Probing(hash, g, info, kv, m, pos, k, idx, x) && idx <= g.n
    requires k in m ==> idx != pos[k]
    ensures Probing(hash, g, info, kv, m, pos, k, idx + 1, x + g.inc)
    ensures x == info[idx] ==> info[idx + 1] <= x + g.inc
  {
    InfoAtStep(hash, g, k, idx);
    ProbeStops(hash, g, info, kv, k, idx);
    assert idx < g.n ==> StepOk(g, info, idx);
  }
}
