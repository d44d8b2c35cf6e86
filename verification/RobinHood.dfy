/** robin_hood's Table: an open-addressing hash table over two arrays, checked against a plain map. */
module RobinHood {
  import opened Arithmetic
  import opened Counting
  import opened RobinHoodSlots
  import opened RobinHoodMoves
  import opened RobinHoodCrowding

  const INITIAL_NUM_ELEMENTS: nat := 8

  datatype InsertionState = OverflowError | KeyFound | NewNode | OverwriteNode

  predicate PowerOfTwo(x: nat) {
    x == 1 || (x > 1 && x % 2 == 0 && PowerOfTwo(x / 2))
  }

  function CalcMaxNumElementsAllowed(maxLoadFactor100: nat, maxElements: nat): nat {
    maxElements * maxLoadFactor100 / 100
  }

  function CalcNumElementsWithBuffer(maxLoadFactor100: nat, numElements: nat): nat {
    var allowed := CalcMaxNumElementsAllowed(maxLoadFactor100, numElements);
    numElements + if allowed < 255 then allowed else 255
  }

  /** Sizes, counters and bytes of a table with count elements fit together. */
  ghost predicate Sized(load: nat, g: Layout, info: seq<int>, count: nat, maxAllowed: nat) {
    10 < load < 100 && PowerOfTwo(g.mask + 1) && g.n == CalcNumElementsWithBuffer(load, g.mask + 1) &&
    |info| == g.n + PADDING && count <= CalcMaxNumElementsAllowed(load, g.mask + 1) &&
    (maxAllowed == 0 || maxAllowed == CalcMaxNumElementsAllowed(load, g.mask + 1)) &&
    (g.mask == 0 ==> g.inc == INITIAL_INFO_INC && g.shift == INITIAL_INFO_HASH_SHIFT) &&
    (g.mask != 0 ==> info[g.n] == 1) && Bytes(g, info, maxAllowed)
  }

  /** No info byte exceeds 255, and none can on the next insertion while insertions are allowed. */
  ghost predicate Bytes(g: Layout, info: seq<int>, maxAllowed: nat)
    requires g.n <= |info|
  {
    forall i :: 0 <= i < g.n ==> info[i] + (if maxAllowed > 0 then g.inc else 0) <= 255
  }

  lemma SizedErase(load: nat, g: Layout, info: seq<int>, info': seq<int>, count: nat, maxAllowed: nat)
    requires Sized(load, g, info, count + 1, maxAllowed) && |info'| == |info| && info'[g.n] == info[g.n]
    requires forall i :: 0 <= i < g.n ==> info'[i] <= info[i]
    ensures Sized(load, g, info', count, maxAllowed)
  {
    hide CalcNumElementsWithBuffer, CalcMaxNumElementsAllowed, PowerOfTwo;
  }

  /** kv' is kv with slots p to e - 1 moved up by one; what is in slot p does not matter. */
  ghost predicate RoomMade<K, V>(kv: seq<Node<K, V>>, kv': seq<Node<K, V>>, p: nat, e: nat) {
    p <= e < |kv| == |kv'| &&
    forall i :: 0 <= i < |kv| && i != p ==> kv'[i] == kv[if p < i <= e then i - 1 else i]
  }

  lemma RoomFilled<K, V>(kv: seq<Node<K, V>>, kv': seq<Node<K, V>>, p: nat, e: nat, node: Node<K, V>)
    requires RoomMade(kv, kv', p, e)
    ensures p <= e < |kv| == |kv'| && kv'[p := node] == UpNodes(kv, p, e, node)
  {
  }

  /** After making room for one more key: the flag maxAllowed' is down when a new byte leaves no room for another
      increment. */
  lemma InsertState<K, V(!new)>(load: nat, hash: (K, nat) -> nat, g: Layout, info: seq<int>, kv: seq<Node<K, V>>,
                                m: map<K, V>, pos: map<K, nat>, maxAllowed: nat, maxAllowed': nat, k: K, p: nat, e: nat,
                                kv': seq<Node<K, V>>)
    requires Sized(load, g, info, |m|, maxAllowed) && Insertable(hash, g, info, kv, m, pos, k, p, e)
    requires |m| < CalcMaxNumElementsAllowed(load, g.mask + 1) && maxAllowed > 0 && g.mask != 0
    requires maxAllowed' == maxAllowed || maxAllowed' == 0
    requires maxAllowed' > 0 ==>
      forall i :: p <= i <= e ==> UpInfo(g, info, p, e, InfoAt(hash, g, k, p))[i] + g.inc <= 255
    requires RoomMade(kv, kv', p, e)
    ensures Sized(load, g, UpInfo(g, info, p, e, InfoAt(hash, g, k, p)), |m| + 1, maxAllowed')
    ensures forall v ::
      Inv(hash, g, UpInfo(g, info, p, e, InfoAt(hash, g, k, p)), kv'[p := Node(k, v)], m[k := v],
          UpPos(m, pos, p, e, k))
  {
    hide Inv, Insertable, InfoAt, CalcNumElementsWithBuffer, CalcMaxNumElementsAllowed, PowerOfTwo, UpNodes;
    InsertionByte(hash, g, info, kv, m, pos, k, p, e);
    var info', pos' := UpInfo(g, info, p, e, InfoAt(hash, g, k, p)), UpPos(m, pos, p, e, k);
    forall v ensures Inv(hash, g, info', kv'[p := Node(k, v)], m[k := v], pos') {
      RoomFilled(kv, kv', p, e, Node(k, v));
      InsertKeepsInv(hash, g, info, kv, m, pos, k, v, p, e);
    }
  }

  /** The new key's byte is no larger than the byte before it plus one increment. */
  lemma InsertionByte<K, V(!new)>(hash: (K, nat) -> nat, g: Layout, info: seq<int>, kv: seq<Node<K, V>>,
                                  m: map<K, V>, pos: map<K, nat>, k: K, p: nat, e: nat)
    requires Insertable(hash, g, info, kv, m, pos, k, p, e)
    ensures InfoAt(hash, g, k, p) <= if p == 0 then 63 else Max(63, info[p - 1] + g.inc)
    ensures p <= e < g.n && |info| == g.n + PADDING && |kv| == g.n && m.Keys == pos.Keys
    ensures Inv(hash, g, info, kv, m, pos) && k !in m
  {
    StartInfoRange(hash, g, k);
    InfoAtStep(hash, g, k, p - 1);
  }

  function Max(x: int, y: int): int {
    if x < y then y else x
  }

  lemma HalvedState<K, V(!new)>(load: nat, hash: (K, nat) -> nat, g: Layout, info: seq<int>, kv: seq<Node<K, V>>,
                                m: map<K, V>, pos: map<K, nat>, maxAllowed: nat)
    requires Sized(load, g, info, |m|, maxAllowed) && Inv(hash, g, info, kv, m, pos) && g.mask != 0 && g.inc > 2
    ensures Sized(load, HalvedLayout(g), HalvedInfo(g, info), |m|, CalcMaxNumElementsAllowed(load, g.mask + 1))
    ensures Inv(hash, HalvedLayout(g), HalvedInfo(g, info), kv, m, pos)
    ensures forall i :: g.n < i < |info| ==> info[i] == 0
  {
    hide InfoAt, StartInfo, CalcNumElementsWithBuffer, CalcMaxNumElementsAllowed, PowerOfTwo, SlotOk, StepOk;
    HalvingKeepsInv(hash, g, info, kv, m, pos);
    InfoIncAtLeast(hash, g, info, kv);
  }

  lemma InfoIncAtLeast<K, V>(hash: (K, nat) -> nat, g: Layout, info: seq<int>, kv: seq<Node<K, V>>)
    requires GoodLayout(g) && Ordered(hash, g, info, kv)
    ensures forall i :: 0 <= i < g.n ==> info[i] >= 0
  {
    OccupiedBytes(hash, g, info, kv);
  }

  /** What a finished probe knows about its info. */
  lemma ProbeInfo<K, V(!new)>(hash: (K, nat) -> nat, g: Layout, info: seq<int>, kv: seq<Node<K, V>>,
                              m: map<K, V>, pos: map<K, nat>, k: K, idx: nat, x: int)
    requires Probing(hash, g, info, kv, m, pos, k, idx, x)
    ensures x == InfoAt(hash, g, k, idx) && Home(hash, g, k) <= idx
  {
  }

  lemma EmptyState<K, V(!new)>(load: nat, hash: (K, nat) -> nat, g: Layout, info: seq<int>, kv: seq<Node<K, V>>,
                               maxAllowed: nat)
    requires 10 < load < 100 && PowerOfTwo(g.mask + 1) && g.n == CalcNumElementsWithBuffer(load, g.mask + 1) == |kv|
    requires g.inc == INITIAL_INFO_INC && g.shift == INITIAL_INFO_HASH_SHIFT && |info| == g.n + PADDING
    requires maxAllowed == 0 || maxAllowed == CalcMaxNumElementsAllowed(load, g.mask + 1)
    requires forall i :: 0 <= i < |info| && i != g.n ==> info[i] == 0
    requires 0 <= info[g.n] <= 1 && (g.mask != 0 ==> info[g.n] == 1)
    ensures Sized(load, g, info, 0, maxAllowed) && Inv(hash, g, info, kv, map[], map[])
  {
    hide CalcMaxNumElementsAllowed, PowerOfTwo;
  }

  /** No slot that the probe for a key has passed is vacant. */
  lemma BeforeSpot<K, V(!new)>(hash: (K, nat) -> nat, g: Layout, info: seq<int>, kv: seq<Node<K, V>>, k: K, e: nat,
                               p: nat)
    requires GoodLayout(g) && Ordered(hash, g, info, kv) && g.mask <= e < p <= g.n
    requires InfoAt(hash, g, k, p) - g.inc <= info[p - 1]
    ensures info[e] != 0
  {
    StartInfoRange(hash, g, k);
    InfoAtStep(hash, g, k, p - 1);
    RunBefore(hash, g, info, kv, k, e, p - 1);
    InfoAtGrows(hash, g, k, e);
  }

  ghost function Without<K, V>(m: map<K, V>, k: K): map<K, V> {
    m - {k}
  }

  lemma EraseState<K, V(!new)>(load: nat, hash: (K, nat) -> nat, g: Layout, info: seq<int>, kv: seq<Node<K, V>>,
                               m: map<K, V>, pos: map<K, nat>, maxAllowed: nat, k: K, f: nat)
    requires Sized(load, g, info, |m|, maxAllowed) && Inv(hash, g, info, kv, m, pos)
    requires k in m && pos[k] <= f < g.n
    requires (forall i :: pos[k] < i <= f ==> info[i] >= 2 * g.inc) && info[f + 1] < 2 * g.inc
    ensures |Without(m, k)| == |m| - 1
    ensures Sized(load, g, DownInfo(g, info, pos[k], f), |m| - 1, maxAllowed)
    ensures Inv(hash, g, DownInfo(g, info, pos[k], f), DownNodes(kv, pos[k], f), Without(m, k),
                DownPos(pos, pos[k], f, k))
  {
    hide Inv, Sized, DownInfo, DownNodes;
    ErasableAt(hash, g, info, kv, m, pos, k, f);
    EraseKeepsInv(hash, g, info, kv, m, pos, pos[k], f);
    assert m.Keys == (m - {k}).Keys + {k};
    SizedErase(load, g, info, DownInfo(g, info, pos[k], f), |m| - 1, maxAllowed);
  }

  /** info' is info with bytes p to e - 1 moved up by one and raised by one increment. */
  ghost predicate BytesMoved(g: Layout, info: seq<int>, info': seq<int>, p: nat, e: nat) {
    p <= e < |info| == |info'| &&
    forall i :: 0 <= i < |info| ==>
      info'[i] == info[if p < i <= e then i - 1 else i] + if p < i <= e then g.inc else 0
  }

  lemma NothingMoved<K, V>(g: Layout, info: seq<int>, kv: seq<Node<K, V>>, p: nat)
    requires p < |info| && p < |kv|
    ensures BytesMoved(g, info, info, p, p) && RoomMade(kv, kv, p, p)
  {
  }

  lemma ByteWritten(g: Layout, info: seq<int>, info': seq<int>, p: nat, e: nat, x: int)
    requires BytesMoved(g, info, info', p, e)
    ensures p <= e < |info| == |info'| && info'[p := x] == UpInfo(g, info, p, e, x)
  {
  }

  /** Slots d + 1 to f have moved down by one so far; what is in slot f does not matter. */
  ghost predicate MovedDown<K, V>(g: Layout, info: seq<int>, info': seq<int>, kv: seq<Node<K, V>>, kv': seq<Node<K, V>>,
                                  d: nat, f: nat)
  {
    d <= f < |kv| == |kv'| && f + 1 < |info| == |info'| &&
    (forall i :: 0 <= i < |info| ==>
      info'[i] == info[if d <= i < f then i + 1 else i] - if d <= i < f then g.inc else 0) &&
    forall i :: 0 <= i < |kv| ==> kv'[i] == kv[if d <= i < f then i + 1 else i]
  }

  lemma MovedDownStart<K, V>(g: Layout, info: seq<int>, kv: seq<Node<K, V>>, d: nat)
    requires d < |kv| && d + 1 < |info|
    ensures MovedDown(g, info, info, kv, kv, d, d)
  {
  }

  lemma MovedDownStep<K, V>(g: Layout, info: seq<int>, info': seq<int>, kv: seq<Node<K, V>>, kv': seq<Node<K, V>>,
                            d: nat, f: nat)
    requires MovedDown(g, info, info', kv, kv', d, f) && f + 1 < |kv| && f + 2 < |info|
    ensures d <= f < |kv| == |kv'| && f + 1 < |info| == |info'|
    ensures info'[f + 1] == info[f + 1]
    ensures MovedDown(g, info, info'[f := info'[f + 1] - g.inc], kv, kv'[f := kv'[f + 1]], d, f + 1)
  {
  }

  lemma MovedDownEnd<K, V>(g: Layout, info: seq<int>, info': seq<int>, kv: seq<Node<K, V>>, kv': seq<Node<K, V>>,
                           d: nat, f: nat)
    requires MovedDown(g, info, info', kv, kv', d, f)
    ensures d <= f < |kv| == |kv'| && f + 1 < |info| == |info'| && info'[f + 1] == info[f + 1]
    ensures info'[f := 0] == DownInfo(g, info, d, f) && kv'[f := Vacant] == DownNodes(kv, d, f)
  {
  }

  lemma TooSmall(load: nat, x: nat, wanted: nat)
    requires CalcMaxNumElementsAllowed(load, x) < wanted && load > 10
    ensures x < 100 * wanted
  {
    var y := x * load;
    TimesAtLeast(load, x);
    assert y == load * x;
    assert CalcMaxNumElementsAllowed(load, x) == y / 100;
    hide CalcMaxNumElementsAllowed;
  }

  lemma AllowedGrows(load: nat, x: nat, y: nat)
    requires x <= y
    ensures CalcMaxNumElementsAllowed(load, x) <= CalcMaxNumElementsAllowed(load, y)
  {
    assert x * load <= y * load;
  }

  lemma {:induction false} TwiceAsLarge(x: nat, y: nat)
    requires PowerOfTwo(x) && PowerOfTwo(y) && x < y
    ensures 2 * x <= y
  {
    if x > 1 {
      TwiceAsLarge(x / 2, y / 2);
    }
  }

  /** Whether the least doubling that allows the elements is larger, or smaller, than the size there is. */
  lemma FitsBetter(load: nat, newSize: nat, size: nat, wanted: nat)
    requires PowerOfTwo(newSize) && PowerOfTwo(size) && newSize >= INITIAL_NUM_ELEMENTS
    requires wanted <= CalcMaxNumElementsAllowed(load, newSize)
    requires newSize > INITIAL_NUM_ELEMENTS ==> CalcMaxNumElementsAllowed(load, newSize / 2) < wanted
    ensures newSize > size <==> size < INITIAL_NUM_ELEMENTS || CalcMaxNumElementsAllowed(load, size) < wanted
    ensures newSize < size <==> size > INITIAL_NUM_ELEMENTS && wanted <= CalcMaxNumElementsAllowed(load, size / 2)
  {
    hide CalcMaxNumElementsAllowed;
    if newSize > size {
      TwiceAsLarge(size, newSize);
      AllowedGrows(load, size, newSize / 2);
      AllowedGrows(load, size / 2, newSize / 2);
    } else {
      AllowedGrows(load, newSize, size);
      AllowedGrows(load, newSize / 2, size / 2);
      if newSize < size {
        TwiceAsLarge(newSize, size);
        AllowedGrows(load, newSize, size / 2);
      }
    }
  }

  // ---- rehashing -------------------------------------------------------------------------------------------

  /** The bindings whose slot is before i. */
  ghost function Upto<K, V>(m: map<K, V>, pos: map<K, nat>, i: nat): map<K, V>
    requires m.Keys == pos.Keys
  {
    map k | k in m && pos[k] < i :: m[k]
  }

  /** Going over the slots once meets every binding once. */
  lemma UptoStep<K, V(!new)>(info: seq<int>, kv: seq<Node<K, V>>, n: nat, m: map<K, V>, pos: map<K, nat>, i: nat)
    requires Holds(info, kv, n, m, pos) && i < n
    ensures info[i] == 0 ==> Upto(m, pos, i + 1) == Upto(m, pos, i)
    ensures info[i] != 0 ==> kv[i].Node? && kv[i].key !in Upto(m, pos, i) && |Upto(m, pos, i)| < |m| &&
                             Upto(m, pos, i + 1) == Upto(m, pos, i)[kv[i].key := kv[i].val]
  {
    var before := Upto(m, pos, i);
    if info[i] != 0 {
      var k := kv[i].key;
      assert k in m && pos[k] == i;
      assert Upto(m, pos, i + 1) == before[k := kv[i].val];
      SubsetCount(before.Keys + {k}, m.Keys);
      assert |before.Keys| == |before| && |m.Keys| == |m|;
    } else {
      assert Upto(m, pos, i + 1) == before;
    }
  }

  lemma UptoEnds<K, V(!new)>(info: seq<int>, kv: seq<Node<K, V>>, n: nat, m: map<K, V>, pos: map<K, nat>)
    requires Holds(info, kv, n, m, pos)
    ensures Upto(m, pos, 0) == map[] && Upto(m, pos, n) == m
  {
  }

  lemma HoldsKeys<K, V(!new)>(info: seq<int>, kv: seq<Node<K, V>>, n: nat, m: map<K, V>, pos: map<K, nat>)
    requires Holds(info, kv, n, m, pos)
    ensures m.Keys == pos.Keys
  {
  }

  /** All bindings of m are bindings of n. */
  ghost predicate PartOf<K, V>(m: map<K, V>, n: map<K, V>) {
    m.Keys <= n.Keys && forall k :: k in m ==> m[k] == n[k]
  }

  lemma WholeIsPart<K, V>(m: map<K, V>)
    ensures PartOf(m, m)
  {
  }

  lemma UptoIsPart<K, V>(m: map<K, V>, pos: map<K, nat>, i: nat)
    requires m.Keys == pos.Keys
    ensures PartOf(Upto(m, pos, i), m)
  {
  }

  /** The binding a pass over the slots meets last. */
  ghost predicate LastIn<K(!new), V>(m: map<K, V>, pos: map<K, nat>, k: K) {
    m.Keys == pos.Keys && k in m && forall j :: j in m ==> pos[j] <= pos[k]
  }

  lemma {:induction false} LastExists<K(!new), V>(m: map<K, V>, pos: map<K, nat>, n: nat) returns (k: K)
    requires m.Keys == pos.Keys && m != map[] && forall j :: j in m ==> pos[j] <= n
    ensures LastIn(m, pos, k)
    decreases n
  {
    if j :| j in m && pos[j] == n {
      k := j;
    } else {
      var j :| j in m;
      k := LastExists(m, pos, n - 1);
    }
  }

  /** At an occupied slot the last binding is still to come, and if it is here all others have been met. */
  lemma UptoLast<K(!new), V(!new)>(info: seq<int>, kv: seq<Node<K, V>>, n: nat, m: map<K, V>, pos: map<K, nat>, i: nat,
                                   k: K)
    requires Holds(info, kv, n, m, pos) && i < n && info[i] != 0 && LastIn(m, pos, k)
    ensures k in pos && pos[k] >= i && Upto(m, pos, i).Keys <= m.Keys - {k}
    ensures pos[k] == i ==> Upto(m, pos, i).Keys == m.Keys - {k}
  {
    assert kv[i].key in m && pos[kv[i].key] == i;
    if pos[k] == i {
      forall j | j in m && j != k ensures pos[j] < i {
        assert kv[pos[j]].key == j && kv[pos[k]].key == k;
      }
    }
  }

  /** The keys met before the last one are crowded out. */
  ghost predicate EarlierCrowded<K(!new), V>(hash: (K, nat) -> nat, mask: nat, mult: nat, m: map<K, V>,
                                             pos: map<K, nat>)
  {
    exists k :: LastIn(m, pos, k) && Crowded(hash, mask, mult, m.Keys - {k}, 127)
  }

  /** If the last key was met before slot i, the keys met before it are not crowded out. */
  ghost predicate EarlierFit<K(!new), V>(hash: (K, nat) -> nat, mask: nat, mult: nat, m: map<K, V>, pos: map<K, nat>,
                                         i: nat)
  {
    forall k :: LastIn(m, pos, k) && k in pos && pos[k] < i ==> !Crowded(hash, mask, mult, m.Keys - {k}, 127)
  }

  lemma EarlierFitStart<K(!new), V>(hash: (K, nat) -> nat, mask: nat, mult: nat, m: map<K, V>, pos: map<K, nat>)
    ensures EarlierFit(hash, mask, mult, m, pos, 0)
  {
  }

  lemma EarlierFitStep<K(!new), V(!new)>(hash: (K, nat) -> nat, mask: nat, mult: nat, info: seq<int>,
                                         kv: seq<Node<K, V>>, n: nat, m: map<K, V>, pos: map<K, nat>, i: nat)
    requires Holds(info, kv, n, m, pos) && i < n && EarlierFit(hash, mask, mult, m, pos, i) && m.Keys == pos.Keys
    requires info[i] != 0 ==> !Crowded(hash, mask, mult, Upto(m, pos, i).Keys, 127)
    ensures EarlierFit(hash, mask, mult, m, pos, i + 1)
  {
    hide Crowded, Upto;
    forall k | LastIn(m, pos, k) && k in pos && pos[k] == i ensures !Crowded(hash, mask, mult, m.Keys - {k}, 127) {
      UptoLast(info, kv, n, m, pos, i, k);
    }
  }

  lemma EarlierFitEnd<K(!new), V(!new)>(hash: (K, nat) -> nat, mask: nat, mult: nat, info: seq<int>,
                                        kv: seq<Node<K, V>>, n: nat, m: map<K, V>, pos: map<K, nat>)
    requires Holds(info, kv, n, m, pos) && EarlierFit(hash, mask, mult, m, pos, n)
    ensures !EarlierCrowded(hash, mask, mult, m, pos)
  {
    hide Crowded;
  }

  lemma CrowdedEarly<K(!new), V(!new)>(hash: (K, nat) -> nat, mask: nat, mult: nat, info: seq<int>,
                                       kv: seq<Node<K, V>>, n: nat, m: map<K, V>, pos: map<K, nat>, i: nat)
    requires Holds(info, kv, n, m, pos) && i < n && info[i] != 0 && m.Keys == pos.Keys
    requires Crowded(hash, mask, mult, Upto(m, pos, i).Keys, 127)
    ensures EarlierCrowded(hash, mask, mult, m, pos)
  {
    hide Crowded, Upto;
    assert kv[i].key in m;
    var k := LastExists(m, pos, n);
    UptoLast(info, kv, n, m, pos, i, k);
    CrowdedMore(hash, mask, mult, Upto(m, pos, i).Keys, m.Keys - {k}, 127);
  }

  /** Keys that are not crowded out are not before the last one either. */
  lemma NoneCrowded<K(!new), V>(hash: (K, nat) -> nat, mask: nat, mult: nat, m: map<K, V>, pos: map<K, nat>)
    requires !Crowded(hash, mask, mult, m.Keys, 127)
    ensures !EarlierCrowded(hash, mask, mult, m, pos)
  {
    hide Crowded;
    if k :| LastIn(m, pos, k) && Crowded(hash, mask, mult, m.Keys - {k}, 127) {
      CrowdedMore(hash, mask, mult, m.Keys - {k}, m.Keys, 127);
    }
  }

  function NextMultiplier(mult: nat): nat {
    (mult + 0xc4ceb9fe1a85ec54) % 0x1_0000_0000_0000_0000
  }

  lemma HalvedFields(g: Layout, h: Layout)
    requires h == g.(inc := g.inc / 2, shift := g.shift + 1)
    ensures h == HalvedLayout(g)
  {
  }

  lemma InitialSize()
    ensures PowerOfTwo(INITIAL_NUM_ELEMENTS)
  {
    assert PowerOfTwo(1) && PowerOfTwo(2) && PowerOfTwo(4);
  }

  lemma DoubledSize(x: nat)
    requires PowerOfTwo(x)
    ensures PowerOfTwo(x * 2)
  {
  }

  lemma AssignKeepsInv<K, V(!new)>(hash: (K, nat) -> nat, g: Layout, info: seq<int>, kv: seq<Node<K, V>>,
                                   m: map<K, V>, pos: map<K, nat>, k: K, v: V)
    requires Inv(hash, g, info, kv, m, pos) && k in m
    ensures k in pos && pos[k] < |kv| && |m[k := v]| == |m|
    ensures Inv(hash, g, info, kv[pos[k] := Node(k, v)], m[k := v], pos)
  {
    var kv' := kv[pos[k] := Node(k, v)];
    assert m[k := v].Keys == m.Keys;
    forall i | 0 <= i < g.n ensures SlotOk(hash, g, info, kv', i) {
      assert SlotOk(hash, g, info, kv, i);
    }
    hide InfoAt, Home;
  }

  class Table<K(==, !new), V(!new)> {
    const hash: (K, nat) -> nat
    const maxLoadFactor100: nat
    var mHashMultiplier: nat
    var mKeyVals: array<Node<K, V>>
    var mInfo: array<int>
    var mNumElements: nat
    var mMask: nat
    var mMaxNumElementsAllowed: nat
    var mInfoInc: nat
    var mInfoHashShift: nat
    ghost var Model: map<K, V>
    ghost var pos: map<K, nat>

    ghost function Lay(): Layout
      reads this
    {
      Layout(mKeyVals.Length, mMask, mInfoInc, mInfoHashShift, mHashMultiplier)
    }

    /** With these key-value slots the table represents m. */
    ghost predicate State(kv: seq<Node<K, V>>, m: map<K, V>)
      reads this, mInfo
    {
      mInfo as object != mKeyVals && mNumElements == |m| &&
      Sized(maxLoadFactor100, Lay(), mInfo[..], |m|, mMaxNumElementsAllowed) &&
      Inv(hash, Lay(), mInfo[..], kv, m, pos)
    }

    ghost predicate Valid()
      reads this, mInfo, mKeyVals
    {
      State(mKeyVals[..], Model)
    }

    /** Slot idx is reserved for the new key: whatever value is put there, the table gains exactly that binding. */
    ghost predicate Prepared(key: K, idx: nat)
      reads this, mInfo, mKeyVals
    {
      key !in Model && idx < mKeyVals.Length &&
      forall v :: State(mKeyVals[..][idx := Node(key, v)], Model[key := v])
    }

    /** An empty table allocates nothing: all probes see a zero info byte. */
    constructor (hash: (K, nat) -> nat, maxLoadFactor100: nat)
      requires 10 < maxLoadFactor100 < 100
      ensures Valid() && Model == map[] && this.hash == hash && this.maxLoadFactor100 == maxLoadFactor100
      ensures fresh(mInfo) && fresh(mKeyVals)
    {
      this.hash, this.maxLoadFactor100 := hash, maxLoadFactor100;
      mHashMultiplier := 0xc4ceb9fe1a85ec53;
      mKeyVals := new Node<K, V>[1](_ => Vacant);
      mInfo := new int[1 + PADDING](_ => 0);
      mNumElements, mMask, mMaxNumElementsAllowed := 0, 0, 0;
      mInfoInc, mInfoHashShift := INITIAL_INFO_INC, INITIAL_INFO_HASH_SHIFT;
      Model, pos := map[], map[];
    }

    /** keyToIdx */
    method KeyToIdx(key: K) returns (idx: nat, info: nat)
      ensures idx == Home(hash, Lay(), key) && info == StartInfo(hash, Lay(), key)
    {
      var h := hash(key, mHashMultiplier);
      info := mInfoInc + ShiftRight(h % 32, mInfoHashShift);
      idx := h / 32 % (mMask + 1);
    }

    /** findIdx: the slot of the key exactly when the key is in the table; probing stops early and inside. */
    method FindIdx(key: K) returns (idx: nat)
      requires Valid()
      ensures if key in Model then idx < mKeyVals.Length && mInfo[idx] != 0 && mKeyVals[idx] == Node(key, Model[key])
              else idx == if mMask == 0 then 0 else mKeyVals.Length
    {
      hide Inv, Home, StartInfo, InfoAt, Probing, Sized, State;
      var info;
      idx, info := KeyToIdx(key);
      ghost var g, bytes, nodes := Lay(), mInfo[..], mKeyVals[..];
      ValidShape();
      ProbeStart(hash, g, bytes, nodes, Model, pos, key);
      while true
        invariant Probing(hash, g, bytes, nodes, Model, pos, key, idx, info) && idx < mKeyVals.Length
        decreases mKeyVals.Length - idx
      {
        ProbeHere(hash, g, bytes, nodes, Model, pos, key, idx, info);
        if info == mInfo[idx] && mKeyVals[idx].key == key {
          return;
        }
        ProbeNext(hash, g, bytes, nodes, Model, pos, key, idx, info);
        idx, info := idx + 1, info + mInfoInc;
        ProbeHere(hash, g, bytes, nodes, Model, pos, key, idx, info);
        if info == mInfo[idx] && mKeyVals[idx].key == key {
          return;
        }
        ProbeNext(hash, g, bytes, nodes, Model, pos, key, idx, info);
        idx, info := idx + 1, info + mInfoInc;
        ProbeHere(hash, g, bytes, nodes, Model, pos, key, idx, info);
        if !(info <= mInfo[idx]) {
          break;
        }
      }
      idx := if mMask == 0 then 0 else mKeyVals.Length;
    }

    /** shiftDown: moves the keys behind slot d down by one, up to the first that is at home or the first vacant
        slot; that slot becomes vacant. */
    method ShiftDown(d: nat) returns (ghost f: nat)
      requires d < mKeyVals.Length && mInfo.Length == mKeyVals.Length + PADDING && mInfo as object != mKeyVals
      requires mInfoInc >= 2 && mInfo[mKeyVals.Length] <= 1
      modifies mInfo, mKeyVals
      ensures d <= f < mKeyVals.Length
      ensures forall i :: d < i <= f ==> old(mInfo[i]) >= 2 * mInfoInc
      ensures old(mInfo[f + 1]) < 2 * mInfoInc
      ensures mInfo[..] == DownInfo(Lay(), old(mInfo[..]), d, f)
      ensures mKeyVals[..] == DownNodes(old(mKeyVals[..]), d, f)
    {
      hide DownInfo, DownNodes, MovedDown;
      ghost var g, bytes, nodes := Lay(), mInfo[..], mKeyVals[..];
      var idx := d;
      MovedDownStart(g, bytes, nodes, d);
      while mInfo[idx + 1] >= 2 * mInfoInc
        invariant d <= idx < mKeyVals.Length
        invariant MovedDown(g, bytes, mInfo[..], nodes, mKeyVals[..], d, idx)
        invariant mInfo[mKeyVals.Length] <= 1
        invariant forall i :: d < i <= idx ==> bytes[i] >= 2 * mInfoInc
        decreases mKeyVals.Length - idx
        modifies mInfo, mKeyVals
      {
        ghost var bytes', nodes' := mInfo[..], mKeyVals[..];
        MovedDownStep(g, bytes, bytes', nodes, nodes', d, idx);
        mInfo[idx] := mInfo[idx + 1] - mInfoInc;
        mKeyVals[idx] := mKeyVals[idx + 1];
        assert mInfo[..] == bytes'[idx := bytes'[idx + 1] - g.inc] && mKeyVals[..] == nodes'[idx := nodes'[idx + 1]];
        idx := idx + 1;
      }
      ghost var bytes', nodes' := mInfo[..], mKeyVals[..];
      MovedDownEnd(g, bytes, bytes', nodes, nodes', d, idx);
      mInfo[idx] := 0;
      mKeyVals[idx] := Vacant;
      f := idx;
      assert mInfo[..] == bytes'[f := 0] && mKeyVals[..] == nodes'[f := Vacant];
    }

    /** erase(pos): shifts down and counts; the binding of slot idx is gone and no other. */
    method EraseSlot(idx: nat, ghost key: K)
      requires Valid() && key in Model && pos[key] == idx
      modifies this`mNumElements, this`Model, this`pos, mInfo, mKeyVals
      ensures Valid() && Model == Without(old(Model), key)
    {
      hide State, Inv, Sized, DownInfo, DownNodes, DownPos, Without;
      ghost var g, bytes, nodes, m, places := Lay(), mInfo[..], mKeyVals[..], Model, pos;
      ValidShape();
      ValidAt(key);
      var f := ShiftDown(idx);
      EraseState(maxLoadFactor100, hash, g, bytes, nodes, m, places, mMaxNumElementsAllowed, key, f);
      mNumElements := mNumElements - 1;
      Model, pos := Without(m, key), DownPos(places, idx, f, key);
      StateFrom(mKeyVals[..], Model);
    }

    lemma ValidAt(key: K)
      requires Valid() && key in Model
      ensures key in pos && pos[key] < mKeyVals.Length && mKeyVals[pos[key]] == Node(key, Model[key])
      ensures mInfo.Length == mKeyVals.Length + PADDING && mInfo[pos[key]] != 0
    {
    }

    lemma StateFrom(kv: seq<Node<K, V>>, m: map<K, V>)
      requires mInfo as object != mKeyVals && mNumElements == |m|
      requires Sized(maxLoadFactor100, Lay(), mInfo[..], |m|, mMaxNumElementsAllowed)
      requires Inv(hash, Lay(), mInfo[..], kv, m, pos)
      ensures State(kv, m)
    {
    }

    lemma ValidShape()
      requires Valid()
      ensures pos.Keys == Model.Keys && mInfo as object != mKeyVals
      ensures Sized(maxLoadFactor100, Lay(), mInfo[..], |Model|, mMaxNumElementsAllowed)
      ensures Inv(hash, Lay(), mInfo[..], mKeyVals[..], Model, pos)
      ensures mInfo.Length == mKeyVals.Length + PADDING && mInfoInc >= 2 && mInfo[mKeyVals.Length] <= 1
      ensures mNumElements == |Model|
    {
    }

    /** The loop of erase(key). */
    method FindToErase(key: K) returns (found: bool, idx: nat)
      requires Valid()
      ensures found == (key in Model)
      ensures found ==> key in pos && idx == pos[key]
    {
      hide Inv, Home, StartInfo, InfoAt, Probing, Sized, State;
      var info;
      idx, info := KeyToIdx(key);
      ghost var g, bytes, nodes := Lay(), mInfo[..], mKeyVals[..];
      ValidShape();
      ProbeStart(hash, g, bytes, nodes, Model, pos, key);
      while true
        invariant Probing(hash, g, bytes, nodes, Model, pos, key, idx, info) && idx < mKeyVals.Length
        decreases mKeyVals.Length - idx
      {
        ProbeHere(hash, g, bytes, nodes, Model, pos, key, idx, info);
        if info == mInfo[idx] && mKeyVals[idx].key == key {
          return true, idx;
        }
        ProbeNext(hash, g, bytes, nodes, Model, pos, key, idx, info);
        idx, info := idx + 1, info + mInfoInc;
        ProbeHere(hash, g, bytes, nodes, Model, pos, key, idx, info);
        if !(info <= mInfo[idx]) {
          break;
        }
      }
      found := false;
    }

    /** erase(key): removes the key's binding and no other, and reports whether there was one. */
    method Erase(key: K) returns (erased: nat)
      requires Valid()
      modifies this`mNumElements, this`Model, this`pos, mInfo, mKeyVals
      ensures Valid() && Model == old(Model) - {key} && erased == if key in old(Model) then 1 else 0
    {
      hide Valid;
      var found, idx := FindToErase(key);
      if found {
        EraseSlot(idx, key);
        return 1;
      }
      assert Model - {key} == Model;
      return 0;
    }

    /** shiftUp, first loop: moves the keys of slots p to e - 1 up by one. */
    method ShiftNodesUp(e: nat, p: nat)
      requires p < e < mKeyVals.Length
      modifies mKeyVals
      ensures RoomMade(old(mKeyVals[..]), mKeyVals[..], p, e)
    {
      var idx := e;
      while idx != p
        invariant p <= idx <= e
        invariant forall i :: 0 <= i < mKeyVals.Length ==>
          mKeyVals[i] == old(mKeyVals[if idx < i <= e then i - 1 else i])
      {
        mKeyVals[idx] := mKeyVals[idx - 1];
        idx := idx - 1;
      }
    }

    /** shiftUp, second loop: their info bytes follow, one increment larger. The flag goes down when a byte is used
        up. */
    method ShiftInfoUp(e: nat, p: nat) returns (ghost full: nat)
      requires p < e < mKeyVals.Length <= mInfo.Length
      requires forall i :: p <= i < e ==> 0 <= mInfo[i] && mInfo[i] + mInfoInc <= 255
      modifies mInfo, this`mMaxNumElementsAllowed
      ensures BytesMoved(Lay(), old(mInfo[..]), mInfo[..], p, e)
      ensures mMaxNumElementsAllowed == old(mMaxNumElementsAllowed) || mMaxNumElementsAllowed == 0
      ensures mMaxNumElementsAllowed > 0 ==> forall i :: p < i <= e ==> mInfo[i] + mInfoInc <= 255
      ensures p < full <= e && (mMaxNumElementsAllowed != old(mMaxNumElementsAllowed) ==> mInfo[full] + mInfoInc > 255)
    {
      var idx := e;
      full := e;
      while idx != p
        invariant p <= idx <= e && p < full <= e
        invariant forall i :: 0 <= i < mInfo.Length ==>
          mInfo[i] == if idx < i <= e then old(mInfo[i - 1]) + mInfoInc else old(mInfo[i])
        invariant mMaxNumElementsAllowed == old(mMaxNumElementsAllowed) || mMaxNumElementsAllowed == 0
        invariant mMaxNumElementsAllowed > 0 ==> forall i :: idx < i <= e ==> mInfo[i] + mInfoInc <= 255
        invariant mMaxNumElementsAllowed != old(mMaxNumElementsAllowed) ==>
          idx < full <= e && mInfo[full] + mInfoInc > 255
      {
        mInfo[idx] := (mInfo[idx - 1] + mInfoInc) % 256;
        if mInfo[idx] + mInfoInc > 255 {
          mMaxNumElementsAllowed := 0;
          full := idx;
        }
        idx := idx - 1;
      }
    }

    /** Slots p to e - 1 move up by one and slot p gets the info byte x. */
    method ShiftRun(e: nat, p: nat, x: nat) returns (ghost full: nat)
      requires p <= e < mKeyVals.Length <= mInfo.Length && mInfo as object != mKeyVals
      requires forall i :: p <= i < e ==> 0 <= mInfo[i] && mInfo[i] + mInfoInc <= 255
      requires x <= 255
      modifies mInfo, mKeyVals, this`mMaxNumElementsAllowed
      ensures mInfo[..] == UpInfo(Lay(), old(mInfo[..]), p, e, x)
      ensures RoomMade(old(mKeyVals[..]), mKeyVals[..], p, e)
      ensures mMaxNumElementsAllowed == old(mMaxNumElementsAllowed) || mMaxNumElementsAllowed == 0
      ensures mMaxNumElementsAllowed > 0 ==> forall i :: p <= i <= e ==> mInfo[i] + mInfoInc <= 255
      ensures p <= full <= e && (mMaxNumElementsAllowed != old(mMaxNumElementsAllowed) ==> mInfo[full] + mInfoInc > 255)
    {
      hide UpInfo, RoomMade, BytesMoved;
      ghost var g, bytes := Lay(), mInfo[..];
      NothingMoved(g, bytes, mKeyVals[..], p);
      full := p;
      if x + mInfoInc > 255 {
        mMaxNumElementsAllowed := 0;
      }
      if e != p {
        ShiftNodesUp(e, p);
        ghost var last := ShiftInfoUp(e, p);
        full := if x + mInfoInc > 255 then p else last;
      }
      ghost var moved := mInfo[..];
      ByteWritten(g, bytes, moved, p, e, x);
      mInfo[p] := x;
      assert mInfo[..] == moved[p := x];
    }

    /** Makes room at slot p for a new key: shifts the run behind it up, writes the key's byte and counts it. */
    method MakeRoom(key: K, p: nat, info: nat) returns (state: InsertionState)
      requires Valid() && Spot(key, p, info) && mMask != 0
      requires mNumElements < CalcMaxNumElementsAllowed(maxLoadFactor100, mMask + 1) && mMaxNumElementsAllowed > 0
      modifies this`mNumElements, this`mMaxNumElementsAllowed, this`pos, mInfo, mKeyVals
      ensures Prepared(key, p) && (state == NewNode || state == OverwriteNode)
      ensures mInfo as object != mKeyVals && (mMaxNumElementsAllowed == 0 ==> FullByte())
    {
      hide Inv, Sized, State, Spot, Insertable, UpInfo, UpPos, RoomMade, InfoAt, Home, Prepared, Bytes,
        CalcMaxNumElementsAllowed;
      ghost var g, bytes, nodes, m, places := Lay(), mInfo[..], mKeyVals[..], Model, pos;
      ghost var maxAllowed := mMaxNumElementsAllowed;
      ValidShape();
      ghost var e0 := VacantBehind(key, p, info);
      var idx := p;
      while mInfo[idx] != 0
        invariant p <= idx <= e0 && forall i :: p <= i < idx ==> mInfo[i] != 0
        decreases e0 - idx
      {
        idx := idx + 1;
      }
      InsertableHere(key, p, info, idx);
      ghost var full := ShiftRun(idx, p, info);
      InsertState(maxLoadFactor100, hash, g, bytes, nodes, m, places, maxAllowed, mMaxNumElementsAllowed, key, p, idx,
                  mKeyVals[..]);
      mNumElements := mNumElements + 1;
      pos := UpPos(m, places, p, idx, key);
      PreparedFrom(key, p);
      state := if idx == p then NewNode else OverwriteNode;
    }

    lemma PreparedFrom(key: K, p: nat)
      requires key !in Model && p < mKeyVals.Length && mInfo as object != mKeyVals && mNumElements == |Model| + 1
      requires Sized(maxLoadFactor100, Lay(), mInfo[..], |Model| + 1, mMaxNumElementsAllowed)
      requires forall v :: Inv(hash, Lay(), mInfo[..], mKeyVals[..][p := Node(key, v)], Model[key := v], pos)
      ensures Prepared(key, p)
    {
      hide Inv, Sized;
      forall v ensures State(mKeyVals[..][p := Node(key, v)], Model[key := v]) {
        assert Model[key := v].Keys == Model.Keys + {key};
      }
    }

    /** Some slot from p on is vacant, and none between the key's home and p. */
    lemma VacantBehind(key: K, p: nat, info: nat) returns (e: nat)
      requires Valid() && Spot(key, p, info) && mMask != 0
      requires mNumElements < CalcMaxNumElementsAllowed(maxLoadFactor100, mMask + 1)
      ensures p <= e < mKeyVals.Length && mInfo[e] == 0
    {
      e := VacantSlot(hash, Lay(), mInfo[..], mKeyVals[..], Model, pos,
                      CalcMaxNumElementsAllowed(maxLoadFactor100, mMask + 1));
      hide InfoAt, Home, Ordered, Holds, CalcMaxNumElementsAllowed, CalcNumElementsWithBuffer, PowerOfTwo;
      if e < p {
        BeforeSpot(hash, Lay(), mInfo[..], mKeyVals[..], key, e, p);
      }
    }

    lemma InsertableHere(key: K, p: nat, info: nat, e: nat)
      requires Valid() && Spot(key, p, info) && p <= e < mKeyVals.Length
      requires mInfo[e] == 0 && forall i :: p <= i < e ==> mInfo[i] != 0
      requires mMaxNumElementsAllowed > 0
      ensures Insertable(hash, Lay(), mInfo[..], mKeyVals[..], Model, pos, key, p, e)
      ensures key !in Model && info == InfoAt(hash, Lay(), key, p) && info <= 255
      ensures forall i :: p <= i < e ==> 0 <= mInfo[i] && mInfo[i] + mInfoInc <= 255
    {
      InfoAtStep(hash, Lay(), key, p - 1);
      InsertionByte(hash, Lay(), mInfo[..], mKeyVals[..], Model, pos, key, p, e);
      OccupiedBytes(hash, Lay(), mInfo[..], mKeyVals[..]);
    }

    /** The probe of insertKeyPrepareEmptySpot: the key's slot, or the place where it belongs. */
    method FindSpot(key: K) returns (idx: nat, info: nat, found: bool)
      requires Valid()
      ensures found == (key in Model) && (found ==> key in pos && idx == pos[key])
      ensures !found ==> Spot(key, idx, info)
    {
      hide Inv, Home, StartInfo, InfoAt, Probing, Sized, State;
      idx, info := KeyToIdx(key);
      ghost var g, bytes, nodes, home := Lay(), mInfo[..], mKeyVals[..], idx;
      ValidShape();
      ProbeStart(hash, g, bytes, nodes, Model, pos, key);
      while true
        invariant Probing(hash, g, bytes, nodes, Model, pos, key, idx, info) && home <= idx <= mKeyVals.Length
        invariant idx > home ==> info - mInfoInc <= mInfo[idx - 1]
        decreases mKeyVals.Length - idx
      {
        ProbeHere(hash, g, bytes, nodes, Model, pos, key, idx, info);
        if !(info < mInfo[idx]) {
          break;
        }
        ProbeNext(hash, g, bytes, nodes, Model, pos, key, idx, info);
        idx, info := idx + 1, info + mInfoInc;
      }
      while info == mInfo[idx]
        invariant Probing(hash, g, bytes, nodes, Model, pos, key, idx, info) && home <= idx <= mKeyVals.Length
        invariant idx > home ==> info - mInfoInc <= mInfo[idx - 1]
        invariant mInfo[idx] <= info
        decreases mKeyVals.Length - idx
      {
        ProbeHere(hash, g, bytes, nodes, Model, pos, key, idx, info);
        if mKeyVals[idx].key == key {
          return idx, info, true;
        }
        ProbeNext(hash, g, bytes, nodes, Model, pos, key, idx, info);
        idx, info := idx + 1, info + mInfoInc;
      }
      ProbeHere(hash, g, bytes, nodes, Model, pos, key, idx, info);
      ProbeInfo(hash, g, bytes, nodes, Model, pos, key, idx, info);
      found := false;
    }

    /** The place for a key that is not in the table: behind the bytes that are no smaller than its info, before
        a smaller one. */
    ghost predicate Spot(key: K, idx: nat, info: int)
      reads this, mInfo, mKeyVals
    {
      key !in Model && Home(hash, Lay(), key) <= idx <= mKeyVals.Length && idx < mInfo.Length &&
      info == InfoAt(hash, Lay(), key, idx) && info > mInfo[idx] &&
      (idx > Home(hash, Lay(), key) ==> info - mInfoInc <= mInfo[idx - 1])
    }

    /** The probe of insert_move: the key is known to be new, so equal bytes are skipped without comparing keys. */
    method FindGap(key: K) returns (idx: nat, info: nat)
      requires Valid() && key !in Model
      ensures Spot(key, idx, info)
    {
      hide Inv, Home, StartInfo, InfoAt, Probing, Sized, State;
      idx, info := KeyToIdx(key);
      ghost var g, bytes, nodes, home := Lay(), mInfo[..], mKeyVals[..], idx;
      ValidShape();
      ProbeStart(hash, g, bytes, nodes, Model, pos, key);
      while info <= mInfo[idx]
        invariant Probing(hash, g, bytes, nodes, Model, pos, key, idx, info) && home <= idx <= mKeyVals.Length
        invariant idx > home ==> info - mInfoInc <= mInfo[idx - 1]
        decreases mKeyVals.Length - idx
      {
        ProbeHere(hash, g, bytes, nodes, Model, pos, key, idx, info);
        ProbeNext(hash, g, bytes, nodes, Model, pos, key, idx, info);
        idx, info := idx + 1, info + mInfoInc;
      }
      ProbeInfo(hash, g, bytes, nodes, Model, pos, key, idx, info);
    }

    /** tryincreaseinfo: halves the increment and every info byte, eight bytes at a time. The contents stay. */
    method TryIncreaseInfo() returns (ok: bool)
      requires Valid() && mMask != 0
      modifies this`mInfoInc, this`mInfoHashShift, this`mMaxNumElementsAllowed, mInfo
      ensures Valid() && (ok <==> old(mInfoInc) > 2)
      ensures ok ==> mMaxNumElementsAllowed == CalcMaxNumElementsAllowed(maxLoadFactor100, mMask + 1)
      ensures ok ==> Lay() == HalvedLayout(old(Lay())) && mInfo[..] == HalvedInfo(old(Lay()), old(mInfo[..]))
      ensures !ok ==> unchanged(this) && unchanged(mInfo)
    {
      hide Inv, Sized, State, HalvedInfo, HalvedLayout;
      ghost var g, bytes, nodes := Lay(), mInfo[..], mKeyVals[..];
      ValidShape();
      if mInfoInc <= 2 {
        return false;
      }
      HalvedState(maxLoadFactor100, hash, g, bytes, nodes, Model, pos, mMaxNumElementsAllowed);
      HalveBytes();
      mInfoInc := mInfoInc / 2;
      mInfoHashShift := mInfoHashShift + 1;
      mMaxNumElementsAllowed := CalcMaxNumElementsAllowed(maxLoadFactor100, mMask + 1);
      HalvedFields(g, Lay());
      StateFrom(mKeyVals[..], Model);
      return true;
    }

    /** The loop of try_increase_info: all slots, and the sentinel restored. */
    method HalveBytes()
      requires mInfo.Length == mKeyVals.Length + PADDING && mInfo as object != mKeyVals
      requires forall i :: mKeyVals.Length < i < mInfo.Length ==> mInfo[i] == 0
      modifies mInfo
      ensures mInfo[..] == HalvedInfo(Lay(), old(mInfo[..]))
    {
      var i := 0;
      while i < mKeyVals.Length
        invariant 0 <= i < mKeyVals.Length + 8
        invariant forall j :: 0 <= j < mInfo.Length ==> mInfo[j] == if j < i then old(mInfo[j]) / 2 else old(mInfo[j])
      {
        for b := 0 to 8
          invariant forall j :: 0 <= j < mInfo.Length ==>
            mInfo[j] == if j < i + b then old(mInfo[j]) / 2 else old(mInfo[j])
        {
          mInfo[i + b] := mInfo[i + b] / 2;
        }
        i := i + 8;
      }
      mInfo[mKeyVals.Length] := 1;
    }

    /** initData: fresh zeroed bytes with the sentinel behind them. */
    method InitData(maxElements: nat)
      requires 10 < maxLoadFactor100 < 100 && PowerOfTwo(maxElements) && maxElements > 1
      modifies this
      ensures Valid() && Model == map[] && mMask + 1 == maxElements && fresh(mInfo) && fresh(mKeyVals)
      ensures mMaxNumElementsAllowed == CalcMaxNumElementsAllowed(maxLoadFactor100, maxElements)
      ensures mHashMultiplier == old(mHashMultiplier)
    {
      hide State, Sized, Inv, CalcMaxNumElementsAllowed, PowerOfTwo;
      mNumElements := 0;
      mMask := maxElements - 1;
      mMaxNumElementsAllowed := CalcMaxNumElementsAllowed(maxLoadFactor100, maxElements);
      var n := CalcNumElementsWithBuffer(maxLoadFactor100, maxElements);
      mKeyVals := new Node<K, V>[n](_ => Vacant);
      mInfo := new int[n + PADDING](i => if i == n then 1 else 0);
      mInfoInc, mInfoHashShift := INITIAL_INFO_INC, INITIAL_INFO_HASH_SHIFT;
      Model, pos := map[], map[];
      EmptyState(maxLoadFactor100, hash, Lay(), mInfo[..], mKeyVals[..], mMaxNumElementsAllowed);
      StateFrom(mKeyVals[..], Model);
    }

    /** Some info byte leaves no room for another increment, and the increment cannot be halved any more. */
    predicate Exhausted()
      reads this
    {
      mMaxNumElementsAllowed == 0 && mInfoInc <= 2
    }

    /** Some info byte leaves no room for another increment. */
    ghost predicate FullByte()
      reads `mKeyVals, `mInfo, `mInfoInc, mInfo
    {
      exists i :: 0 <= i < mKeyVals.Length && i < mInfo.Length && mInfo[i] + mInfoInc > 255
    }

    /** The homes of the stored keys are too close together for another increment anywhere. */
    ghost predicate CrowdedOut()
      reads this
    {
      Crowded(hash, mMask, mHashMultiplier, Model.Keys, 127)
    }

    /** Keys with crowded homes exhaust every table. */
    lemma CrowdedExhausts()
      requires Valid() && CrowdedOut()
      ensures Exhausted()
    {
      var i := CrowdedByte(hash, Lay(), mInfo[..], mKeyVals[..], Model, pos);
    }

    /** A table that a full byte exhausts has keys with crowded homes. */
    lemma ExhaustedCrowds()
      requires Valid() && Exhausted() && FullByte()
      ensures CrowdedOut()
    {
      var i :| 0 <= i < mKeyVals.Length && i < mInfo.Length && mInfo[i] + mInfoInc > 255;
      FullByteCrowds(hash, Lay(), mInfo[..], mKeyVals[..], Model, pos, i);
    }

    lemma CrowdedIs()
      ensures CrowdedOut() <==> Crowded(hash, mMask, mHashMultiplier, Model.Keys, 127)
    {
    }

    lemma ExhaustedIsCrowded()
      requires Valid() && (Model != map[] && mMaxNumElementsAllowed == 0 ==> FullByte())
      ensures CrowdedOut() ==> Exhausted()
      ensures Model != map[] && Exhausted() ==> CrowdedOut()
    {
      hide Valid, Crowded, FullByte, CrowdedOut;
      if CrowdedOut() {
        CrowdedExhausts();
      } else if Model != map[] && Exhausted() {
        ExhaustedCrowds();
      }
    }

    /** insert_move: stores a binding whose key is known to be new. */
    method InsertMove(key: K, val: V) returns (ok: bool)
      requires Valid() && key !in Model && mMask != 0
      requires mNumElements < CalcMaxNumElementsAllowed(maxLoadFactor100, mMask + 1)
      modifies this`mInfoInc, this`mInfoHashShift, this`mMaxNumElementsAllowed, this`mNumElements, this`Model, this`pos
      modifies mInfo, mKeyVals
      ensures ok <==> old(mMaxNumElementsAllowed) > 0 || old(mInfoInc) > 2
      ensures !ok ==> Exhausted() && Valid() && Model == old(Model)
      ensures ok ==> Valid() && Model == old(Model)[key := val] && (mMaxNumElementsAllowed == 0 ==> FullByte())
    {
      hide Valid, Spot, Prepared, CalcMaxNumElementsAllowed, HalvedInfo, HalvedLayout, FullByte;
      if mMaxNumElementsAllowed == 0 {
        ok := TryIncreaseInfo();
        if !ok {
          return;
        }
      }
      var idx, info := FindGap(key);
      var state := MakeRoom(key, idx, info);
      Commit(key, idx, val);
      ok := true;
    }

    /** Puts the new node into its prepared slot. */
    method Commit(key: K, idx: nat, val: V)
      requires Prepared(key, idx)
      modifies this`Model, mKeyVals
      ensures Valid() && Model == old(Model)[key := val]
      ensures idx < mKeyVals.Length && mKeyVals[idx] == Node(key, val)
    {
      assert State(mKeyVals[..][idx := Node(key, val)], Model[key := val]);
      ghost var nodes := mKeyVals[..];
      hide State;
      mKeyVals[idx] := Node(key, val);
      Model := Model[key := val];
      assert mKeyVals[..] == nodes[idx := Node(key, val)];
    }

    /** The arrays hold the bindings of Model, whatever the hash multiplier is now. */
    ghost predicate Stored()
      reads this, mInfo, mKeyVals
    {
      10 < maxLoadFactor100 < 100 && mKeyVals.Length == CalcNumElementsWithBuffer(maxLoadFactor100, mMask + 1) &&
      |Model| <= CalcMaxNumElementsAllowed(maxLoadFactor100, mMask + 1) &&
      mKeyVals.Length <= mInfo.Length && Holds(mInfo[..], mKeyVals[..], mKeyVals.Length, Model, pos)
    }

    lemma ValidStored()
      requires Valid()
      ensures Stored() && PowerOfTwo(mMask + 1)
    {
    }

    lemma StoredHolds()
      requires Stored()
      ensures mKeyVals.Length <= mInfo.Length && Holds(mInfo[..], mKeyVals[..], mKeyVals.Length, Model, pos)
      ensures mKeyVals.Length == CalcNumElementsWithBuffer(maxLoadFactor100, mMask + 1)
      ensures 10 < maxLoadFactor100 < 100 && Model.Keys == pos.Keys
      ensures mKeyVals.Length <= 1 ==> Model == map[]
    {
    }

    lemma ValidCount()
      requires Valid()
      ensures mNumElements == |Model|
    {
    }

    /** rehashPowerOfTwo: a new table with the same bindings, inserted slot by slot. */
    method Rehash(numBuckets: nat) returns (ok: bool)
      requires Stored() && PowerOfTwo(numBuckets) && numBuckets > 1
      requires |Model| <= CalcMaxNumElementsAllowed(maxLoadFactor100, numBuckets)
      modifies this
      ensures Valid() && mMask + 1 == numBuckets && (ok ==> Model == old(Model))
      ensures !ok ==> Exhausted() && PartOf(Model, old(Model)) && |Model| < |old(Model)|
      ensures ok <==> !EarlierCrowded(hash, numBuckets - 1, old(mHashMultiplier), old(Model), old(pos))
      ensures mHashMultiplier == old(mHashMultiplier)
      ensures ok && Model == map[] ==> mMaxNumElementsAllowed == CalcMaxNumElementsAllowed(maxLoadFactor100, numBuckets)
      ensures ok && Model != map[] && mMaxNumElementsAllowed == 0 ==> FullByte()
      ensures fresh(mInfo) && fresh(mKeyVals)
    {
      hide Stored, Valid, Holds, Upto, CalcMaxNumElementsAllowed, CalcNumElementsWithBuffer, PowerOfTwo;
      StoredHolds();
      var oldKeyVals, oldInfo := mKeyVals, mInfo;
      ghost var bytes, nodes, m, places := mInfo[..], mKeyVals[..], Model, pos;
      var oldMaxElementsWithBuffer := CalcNumElementsWithBuffer(maxLoadFactor100, mMask + 1);
      UptoEnds(bytes, nodes, |nodes|, m, places);
      InitData(numBuckets);
      if oldMaxElementsWithBuffer > 1 {
        ok := Reinsert(oldKeyVals, oldInfo, m, places);
      } else {
        ok := true;
      }
    }

    /** The loop of rehashPowerOfTwo: it overflows exactly when the keys before the last are crowded out. */
    method Reinsert(oldKeyVals: array<Node<K, V>>, oldInfo: array<int>, ghost m: map<K, V>, ghost places: map<K, nat>)
      returns (ok: bool)
      requires Valid() && Model == map[] && mMask != 0 && oldKeyVals.Length <= oldInfo.Length
      requires Holds(oldInfo[..], oldKeyVals[..], oldKeyVals.Length, m, places)
      requires mInfo != oldInfo && mKeyVals != oldKeyVals
      requires mInfo as object != oldKeyVals && mKeyVals as object != oldInfo
      requires |m| <= CalcMaxNumElementsAllowed(maxLoadFactor100, mMask + 1) == mMaxNumElementsAllowed
      modifies this`mInfoInc, this`mInfoHashShift, this`mMaxNumElementsAllowed, this`mNumElements, this`Model, this`pos
      modifies mInfo, mKeyVals
      ensures Valid() && if ok then Model == m else Exhausted() && PartOf(Model, m) && |Model| < |m|
      ensures ok <==> !EarlierCrowded(hash, mMask, mHashMultiplier, m, places)
      ensures ok && m == map[] ==> mMaxNumElementsAllowed == old(mMaxNumElementsAllowed)
      ensures ok && m != map[] && mMaxNumElementsAllowed == 0 ==> FullByte()
    {
      hide Valid, Holds, Upto, CalcMaxNumElementsAllowed, Crowded, CrowdedOut, LastIn, FullByte, EarlierFit,
        EarlierCrowded,
        PartOf;
      ghost var bytes, nodes, n := oldInfo[..], oldKeyVals[..], oldKeyVals.Length;
      HoldsKeys(bytes, nodes, n, m, places);
      UptoEnds(bytes, nodes, n, m, places);
      EarlierFitStart(hash, mMask, mHashMultiplier, m, places);
      for i := 0 to oldKeyVals.Length
        invariant Valid() && Model == Upto(m, places, i)
        invariant oldInfo[..] == bytes && oldKeyVals[..] == nodes
        invariant Model == map[] ==> mMaxNumElementsAllowed == old(mMaxNumElementsAllowed)
        invariant Model != map[] && mMaxNumElementsAllowed == 0 ==> FullByte()
        invariant EarlierFit(hash, mMask, mHashMultiplier, m, places, i)
      {
        UptoStep(bytes, nodes, n, m, places, i);
        if oldInfo[i] != 0 {
          ValidCount();
          ExhaustedIsCrowded();
          CrowdedIs();
          ghost var crowded := CrowdedOut();
          ok := InsertMove(oldKeyVals[i].key, oldKeyVals[i].val);
          if !ok {
            UptoIsPart(m, places, i);
            CrowdedEarly(hash, mMask, mHashMultiplier, bytes, nodes, n, m, places, i);
            return;
          }
          assert !crowded;
        }
        EarlierFitStep(hash, mMask, mHashMultiplier, bytes, nodes, n, m, places, i);
      }
      EarlierFitEnd(hash, mMask, mHashMultiplier, bytes, nodes, n, m, places);
      ok := true;
    }

    /** nextHashMultiplier: 64-bit wrap-around; an odd multiplier stays odd and is never the old one. */
    method NextHashMultiplier()
      modifies this`mHashMultiplier
      ensures mHashMultiplier == NextMultiplier(old(mHashMultiplier))
      ensures mHashMultiplier < 0x1_0000_0000_0000_0000 && mHashMultiplier % 2 == old(mHashMultiplier) % 2
      ensures old(mHashMultiplier) < 0x1_0000_0000_0000_0000 ==> mHashMultiplier != old(mHashMultiplier)
    {
      mHashMultiplier := (mHashMultiplier + 0xc4ceb9fe1a85ec54) % 0x1_0000_0000_0000_0000;
    }

    /** The table can take another key without moving the stored ones to new arrays. */
    ghost predicate RoomWithoutRehash()
      reads this
    {
      mNumElements < mMaxNumElementsAllowed || GrowsWithoutRehash()
    }

    ghost predicate GrowsWithoutRehash()
      reads this
    {
      if mMask == 0
      then CalcMaxNumElementsAllowed(maxLoadFactor100, INITIAL_NUM_ELEMENTS) > 0
      else mNumElements < CalcMaxNumElementsAllowed(maxLoadFactor100, mMask + 1) && mInfoInc > 2
    }

    /** The table has to be rehashed, and the new one has room for all keys and one more. */
    ghost predicate NextRoomy()
      reads this
    {
      mMask != 0 && mNumElements < CalcMaxNumElementsAllowed(maxLoadFactor100, NextMask() + 1) &&
      !Crowded(hash, NextMask(), NextMult(), Model.Keys, 127)
    }

    /** The table has to be rehashed, and the new one is used up before the last key. */
    ghost predicate NextOverflows()
      reads this
    {
      mMask != 0 && !RoomWithoutRehash() && EarlierCrowded(hash, NextMask(), NextMult(), Model, pos)
    }

    /** A rehashed table whose keys are not crowded out has room, or gets it by halving the increment. */
    lemma RoomAfterRehash()
      requires Valid() && mMask != 0 && !CrowdedOut()
      requires mNumElements < CalcMaxNumElementsAllowed(maxLoadFactor100, mMask + 1)
      requires Model == map[] ==> mMaxNumElementsAllowed == CalcMaxNumElementsAllowed(maxLoadFactor100, mMask + 1)
      requires Model != map[] && mMaxNumElementsAllowed == 0 ==> FullByte()
      ensures RoomWithoutRehash()
    {
      ExhaustedIsCrowded();
      AllowedIs();
      if Model != map[] && mMaxNumElementsAllowed == 0 && Exhausted() {
        ExhaustedCrowds();
      }
      hide Valid, CrowdedOut, FullByte, CalcMaxNumElementsAllowed;
    }

    lemma AllowedIs()
      requires Valid()
      ensures mMaxNumElementsAllowed == 0 ||
        mMaxNumElementsAllowed == CalcMaxNumElementsAllowed(maxLoadFactor100, mMask + 1)
    {
    }

    /** Plenty of space left: the same size with another multiplier. */
    ghost predicate Sparse()
      reads this
    {
      mNumElements * 2 < CalcMaxNumElementsAllowed(maxLoadFactor100, mMask + 1)
    }

    ghost function NextMask(): nat
      reads this
    {
      if Sparse() then mMask else (mMask + 1) * 2 - 1
    }

    ghost function NextMult(): nat
      reads this
    {
      if Sparse() then NextMultiplier(mHashMultiplier) else mHashMultiplier
    }

    /** increase_size: first allocation, a smaller increment, a new multiplier or twice the slots. The contents
        stay; ok is false when reinserting overflowed, and then the keys not yet reinserted are lost. */
    method IncreaseSize() returns (ok: bool)
      requires Valid()
      modifies this, mInfo
      ensures Valid() && mMask >= old(mMask) && (ok ==> Model == old(Model))
      ensures old(GrowsWithoutRehash()) ==> ok && mNumElements < mMaxNumElementsAllowed
      ensures ok <==>
        old(GrowsWithoutRehash() || mMask == 0 || !EarlierCrowded(hash, NextMask(), NextMult(), Model, pos))
      ensures old(NextRoomy()) ==> ok && (old(GrowsWithoutRehash()) || RoomWithoutRehash())
      ensures !ok ==> Exhausted() && PartOf(Model, old(Model)) && |Model| < |old(Model)|
      ensures (mInfo == old(mInfo) && mKeyVals == old(mKeyVals)) || (fresh(mInfo) && fresh(mKeyVals))
    {
      hide Valid, State, Stored, CalcMaxNumElementsAllowed, PowerOfTwo, HalvedInfo, HalvedLayout, Crowded,
        EarlierCrowded, NextMultiplier, RoomWithoutRehash, Exhausted;
      ValidBounds();
      if mMask == 0 {
        InitialSize();
        InitData(INITIAL_NUM_ELEMENTS);
        ValidCount();
        return true;
      }
      var maxNumElementsAllowed := CalcMaxNumElementsAllowed(maxLoadFactor100, mMask + 1);
      if mNumElements < maxNumElementsAllowed {
        ok := TryIncreaseInfo();
        if ok {
          return;
        }
      }
      ok := RehashNext();
    }

    /** The part of increase_size that rehashes. */
    method RehashNext() returns (ok: bool)
      requires Valid() && mMask != 0
      modifies this
      ensures Valid() && mMask == old(NextMask()) && (ok ==> Model == old(Model))
      ensures ok <==> !EarlierCrowded(hash, old(NextMask()), old(NextMult()), old(Model), old(pos))
      ensures old(NextRoomy()) ==> ok && RoomWithoutRehash()
      ensures !ok ==> Exhausted() && PartOf(Model, old(Model)) && |Model| < |old(Model)|
      ensures fresh(mInfo) && fresh(mKeyVals)
    {
      hide Valid, State, Stored, CalcMaxNumElementsAllowed, PowerOfTwo, EarlierCrowded, Crowded, FullByte,
        NextMultiplier,
        RoomWithoutRehash;
      ghost var roomy := NextRoomy();
      if roomy {
        NoneCrowded(hash, NextMask(), NextMult(), Model, pos);
      }
      ValidStored();
      ValidBounds();
      if mNumElements * 2 < CalcMaxNumElementsAllowed(maxLoadFactor100, mMask + 1) {
        ok := RehashNewMultiplier();
      } else {
        AllowedGrows(maxLoadFactor100, mMask + 1, (mMask + 1) * 2);
        DoubledSize(mMask + 1);
        ok := Rehash((mMask + 1) * 2);
      }
      if roomy {
        ValidCount();
        RoomAfterRehash();
      }
    }

    /** The branch of increase_size for a table with plenty of space left. */
    method RehashNewMultiplier() returns (ok: bool)
      requires Stored() && PowerOfTwo(mMask + 1) && mMask != 0
      modifies this
      ensures Valid() && mMask == old(mMask)
      ensures if ok then Model == old(Model) else Exhausted() && PartOf(Model, old(Model)) && |Model| < |old(Model)|
      ensures ok <==> !EarlierCrowded(hash, old(mMask), NextMultiplier(old(mHashMultiplier)), old(Model), old(pos))
      ensures mHashMultiplier == NextMultiplier(old(mHashMultiplier))
      ensures ok && Model == map[] ==> mMaxNumElementsAllowed == CalcMaxNumElementsAllowed(maxLoadFactor100, mMask + 1)
      ensures ok && Model != map[] && mMaxNumElementsAllowed == 0 ==> FullByte()
      ensures fresh(mInfo) && fresh(mKeyVals)
    {
      hide Valid, CalcMaxNumElementsAllowed, CalcNumElementsWithBuffer, PowerOfTwo, Holds, EarlierCrowded;
      NextHashMultiplier();
      ok := Rehash(mMask + 1);
    }

    lemma ValidBounds()
      requires Valid()
      ensures 10 < maxLoadFactor100 < 100 && mInfo as object != mKeyVals && mNumElements == |Model|
      ensures mMask == 0 ==> Model == map[]
      ensures |Model| <= CalcMaxNumElementsAllowed(maxLoadFactor100, mMask + 1)
    {
    }

    /** insertKeyPrepareEmptySpot: the key's slot, or a slot prepared for it; growing in between changes nothing. */
    method InsertKeyPrepareEmptySpot(key: K) returns (idx: nat, state: InsertionState)
      requires Valid()
      modifies this, mInfo, mKeyVals
      ensures key in old(Model) <==> state == KeyFound
      ensures state == KeyFound ==> Valid() && Model == old(Model) && key in pos && idx == pos[key]
      ensures state == NewNode || state == OverwriteNode ==> Prepared(key, idx) && Model == old(Model)
      ensures old(RoomWithoutRehash() || NextRoomy()) ==> state != OverflowError
      ensures key !in old(Model) && old(NextOverflows()) ==> state == OverflowError && |Model| < |old(Model)|
      ensures state == OverflowError ==> Valid() && PartOf(Model, old(Model))
      ensures mMask >= old(mMask)
      ensures (mInfo == old(mInfo) && mKeyVals == old(mKeyVals)) || (fresh(mInfo) && fresh(mKeyVals))
    {
      WholeIsPart(Model);
      hide Valid, State, Spot, Prepared, CalcMaxNumElementsAllowed, Crowded, EarlierCrowded, NextMask, NextMult, PartOf;
      for i := 0 to 256
        invariant Valid() && Model == old(Model) && mMask >= old(mMask)
        invariant i > 0 ==> key !in Model
        invariant i == 0 ==> unchanged(this)
        invariant i > 0 ==> !old(NextOverflows())
        invariant old(RoomWithoutRehash() || NextRoomy()) ==>
          i <= 2 && (i == 1 ==> RoomWithoutRehash()) && (i == 2 ==> mNumElements < mMaxNumElementsAllowed)
        invariant (mInfo == old(mInfo) && mKeyVals == old(mKeyVals)) || (fresh(mInfo) && fresh(mKeyVals))
      {
        var info, found;
        idx, info, found := FindSpot(key);
        if found {
          return idx, KeyFound;
        }
        if mNumElements >= mMaxNumElementsAllowed {
          var ok := IncreaseSize();
          if !ok {
            return 0, OverflowError;
          }
          continue;
        }
        RoomAllowed();
        state := MakeRoom(key, idx, info);
        return;
      }
      return 0, OverflowError;
    }

    /** While an insertion is allowed the table is allocated and below its maximum. */
    lemma RoomAllowed()
      requires Valid() && mNumElements < mMaxNumElementsAllowed
      ensures mMask != 0 && mNumElements < CalcMaxNumElementsAllowed(maxLoadFactor100, mMask + 1)
    {
    }

    /** However many slots a table has, the homes of its keys are not that close together. */
    lemma NotOvercrowded()
      requires Valid()
      ensures !Crowded(hash, mMask, mHashMultiplier, Model.Keys, 128) && !AlwaysCrowded(hash, Model.Keys, 128)
    {
      NeverOvercrowded(hash, Lay(), mInfo[..], mKeyVals[..], Model, pos);
    }

    /** try_emplace: adds the binding only if the key is new. */
    method TryEmplace(key: K, val: V) returns (ok: bool, idx: nat, inserted: bool)
      requires Valid()
      modifies this, mInfo, mKeyVals
      ensures Valid() && (ok ==> inserted == (key !in old(Model))) && (!ok ==> PartOf(Model, old(Model)))
      ensures ok ==> Model == if key in old(Model) then old(Model) else old(Model)[key := val]
      ensures ok ==> idx < mKeyVals.Length && mKeyVals[idx] == Node(key, Model[key])
      ensures key in old(Model) || old(RoomWithoutRehash() || NextRoomy()) ==> ok
      ensures key !in old(Model) && old(NextOverflows()) ==> !ok && |Model| < |old(Model)|
      ensures key !in old(Model) && AlwaysCrowded(hash, old(Model).Keys + {key}, 128) ==> !ok
      ensures mMask >= old(mMask)
      ensures (mInfo == old(mInfo) && mKeyVals == old(mKeyVals)) || (fresh(mInfo) && fresh(mKeyVals))
    {
      hide Valid, State, Prepared, AlwaysCrowded, NextRoomy, NextOverflows, RoomWithoutRehash, PartOf;
      assert old(Model)[key := val].Keys == old(Model).Keys + {key};
      var state;
      idx, state := InsertKeyPrepareEmptySpot(key);
      match state
      case KeyFound =>
        ValidAt(key);
        ok, inserted := true, false;
      case OverflowError =>
        ok, inserted := false, false;
      case NewNode =>
        Commit(key, idx, val);
        NotOvercrowded();
        ok, inserted := true, true;
      case OverwriteNode =>
        Commit(key, idx, val);
        NotOvercrowded();
        ok, inserted := true, true;
    }

    /** insert_or_assign: the key has the given value afterwards, all other bindings stay. */
    method InsertOrAssign(key: K, val: V) returns (ok: bool, idx: nat, inserted: bool)
      requires Valid()
      modifies this, mInfo, mKeyVals
      ensures Valid() && (ok ==> inserted == (key !in old(Model)) && Model == old(Model)[key := val])
      ensures !ok ==> PartOf(Model, old(Model))
      ensures ok ==> idx < mKeyVals.Length && mKeyVals[idx] == Node(key, val)
      ensures key in old(Model) || old(RoomWithoutRehash() || NextRoomy()) ==> ok
      ensures key !in old(Model) && old(NextOverflows()) ==> !ok && |Model| < |old(Model)|
      ensures key !in old(Model) && AlwaysCrowded(hash, old(Model).Keys + {key}, 128) ==> !ok
      ensures mMask >= old(mMask)
      ensures (mInfo == old(mInfo) && mKeyVals == old(mKeyVals)) || (fresh(mInfo) && fresh(mKeyVals))
    {
      hide Valid, State, Prepared, AlwaysCrowded, NextRoomy, NextOverflows, RoomWithoutRehash, PartOf;
      assert old(Model)[key := val].Keys == old(Model).Keys + {key};
      var state;
      idx, state := InsertKeyPrepareEmptySpot(key);
      match state
      case KeyFound =>
        Assign(key, idx, val);
        ok, inserted := true, false;
      case OverflowError =>
        ok, inserted := false, false;
      case NewNode =>
        Commit(key, idx, val);
        NotOvercrowded();
        ok, inserted := true, true;
      case OverwriteNode =>
        Commit(key, idx, val);
        NotOvercrowded();
        ok, inserted := true, true;
    }

    /** Gives the key in slot idx another value. */
    method Assign(key: K, idx: nat, val: V)
      requires Valid() && key in pos && idx == pos[key]
      modifies this`Model, mKeyVals
      ensures Valid() && Model == old(Model)[key := val]
      ensures idx < mKeyVals.Length && mKeyVals[idx] == Node(key, val)
    {
      hide State, Inv, Sized;
      ghost var nodes, m := mKeyVals[..], Model;
      ValidShape();
      ValidAt(key);
      AssignKeepsInv(hash, Lay(), mInfo[..], nodes, m, pos, key, val);
      mKeyVals[idx] := Node(key, val);
      assert mKeyVals[..] == nodes[idx := Node(key, val)];
      Model := m[key := val];
      StateFrom(mKeyVals[..], Model);
    }

    /** clear's fill: zero bytes and the sentinel. */
    method ZeroInfo(n: nat)
      requires mInfo.Length == n + PADDING
      modifies mInfo
      ensures forall i :: 0 <= i < mInfo.Length ==> mInfo[i] == if i == n then 1 else 0
    {
      for i := 0 to n + PADDING
        invariant forall j :: 0 <= j < i ==> mInfo[j] == 0
      {
        mInfo[i] := 0;
      }
      mInfo[n] := 1;
    }

    /** clear: forgets all bindings, keeps the arrays, and starts over with the largest increment. */
    method Clear()
      requires Valid()
      modifies this`mNumElements, this`mInfoInc, this`mInfoHashShift, this`Model, this`pos, mInfo
      ensures Valid() && Model == map[] && mNumElements == 0
      ensures if old(mNumElements) == 0 then unchanged(this) && unchanged(mInfo)
              else mInfoInc == INITIAL_INFO_INC && mInfoHashShift == INITIAL_INFO_HASH_SHIFT
    {
      hide State, Inv, Sized, CalcMaxNumElementsAllowed, CalcNumElementsWithBuffer, PowerOfTwo;
      ValidShape();
      ValidBounds();
      ValidStored();
      ClearBounds();
      if mNumElements == 0 {
        return;
      }
      mNumElements := 0;
      var n := CalcNumElementsWithBuffer(maxLoadFactor100, mMask + 1);
      ZeroInfo(n);
      mInfoInc, mInfoHashShift := INITIAL_INFO_INC, INITIAL_INFO_HASH_SHIFT;
      Model, pos := map[], map[];
      EmptyState(maxLoadFactor100, hash, Lay(), mInfo[..], mKeyVals[..], mMaxNumElementsAllowed);
      StateFrom(mKeyVals[..], Model);
    }

    lemma ValidSize()
      requires Valid()
      ensures PowerOfTwo(mMask + 1)
    {
    }

    lemma ClearBounds()
      requires Valid()
      ensures mKeyVals.Length == CalcNumElementsWithBuffer(maxLoadFactor100, mMask + 1)
      ensures mMaxNumElementsAllowed == 0 ||
              mMaxNumElementsAllowed == CalcMaxNumElementsAllowed(maxLoadFactor100, mMask + 1)
      ensures PowerOfTwo(mMask + 1) && (|Model| == 0 ==> Model == map[])
    {
    }

    /** reserve and compact: the smallest doubling of the initial size that allows minElements. */
    method FittingSize(minElements: nat) returns (newSize: nat)
      requires 10 < maxLoadFactor100 < 100
      ensures PowerOfTwo(newSize) && newSize >= INITIAL_NUM_ELEMENTS
      ensures minElements <= CalcMaxNumElementsAllowed(maxLoadFactor100, newSize)
      ensures newSize > INITIAL_NUM_ELEMENTS ==>
        CalcMaxNumElementsAllowed(maxLoadFactor100, newSize / 2) < minElements
    {
      hide CalcMaxNumElementsAllowed, PowerOfTwo;
      newSize := INITIAL_NUM_ELEMENTS;
      InitialSize();
      while CalcMaxNumElementsAllowed(maxLoadFactor100, newSize) < minElements
        invariant PowerOfTwo(newSize) && newSize >= INITIAL_NUM_ELEMENTS
        invariant newSize > INITIAL_NUM_ELEMENTS ==>
          CalcMaxNumElementsAllowed(maxLoadFactor100, newSize / 2) < minElements
        decreases 100 * minElements - newSize
      {
        TooSmall(maxLoadFactor100, newSize, minElements);
        DoubledSize(newSize);
        newSize := newSize * 2;
      }
    }

    /** reserve: room for c elements and all those stored, in the smallest doubling of the initial size that allows
        them; a table that is large enough already is left alone unless a rehash is forced. */
    method Reserve(c: nat, forceRehash: bool) returns (ok: bool)
      requires Valid()
      modifies this
      ensures Valid()
      ensures if ok then Model == old(Model) else Exhausted() && PartOf(Model, old(Model)) && |Model| < |old(Model)|
      ensures !forceRehash ==> mMask >= old(mMask)
      ensures ok <==> mInfo == old(mInfo) || !EarlierCrowded(hash, mMask, mHashMultiplier, old(Model), old(pos))
      ensures ok ==> Max(c, |Model|) <= CalcMaxNumElementsAllowed(maxLoadFactor100, mMask + 1)
      ensures mInfo != old(mInfo) <==>
        forceRehash || old(mMask) + 1 < INITIAL_NUM_ELEMENTS ||
        CalcMaxNumElementsAllowed(maxLoadFactor100, old(mMask) + 1) < Max(c, old(mNumElements))
      ensures if mInfo == old(mInfo) then unchanged(this) && ok
              else fresh(mInfo) && fresh(mKeyVals) && mMask + 1 >= INITIAL_NUM_ELEMENTS &&
                   (mMask + 1 > INITIAL_NUM_ELEMENTS ==>
                     CalcMaxNumElementsAllowed(maxLoadFactor100, (mMask + 1) / 2) < Max(c, old(mNumElements)))
    {
      hide Valid, State, Stored, CalcMaxNumElementsAllowed, PowerOfTwo, EarlierCrowded;
      ValidStored();
      ValidBounds();
      ValidSize();
      var newSize := FittingSize(Max(c, mNumElements));
      FitsBetter(maxLoadFactor100, newSize, mMask + 1, Max(c, mNumElements));
      if forceRehash || newSize > mMask + 1 {
        ok := Rehash(newSize);
      } else {
        AllowedGrows(maxLoadFactor100, newSize, mMask + 1);
        ok := true;
      }
    }

    /** compact: the smallest table that allows the elements stored, if that is smaller. */
    method Compact() returns (ok: bool)
      requires Valid()
      modifies this
      ensures Valid() && mMask <= old(mMask)
      ensures if ok then Model == old(Model) else Exhausted() && PartOf(Model, old(Model)) && |Model| < |old(Model)|
      ensures ok <==> mInfo == old(mInfo) || !EarlierCrowded(hash, mMask, mHashMultiplier, old(Model), old(pos))
      ensures ok && mMask + 1 > INITIAL_NUM_ELEMENTS ==>
        CalcMaxNumElementsAllowed(maxLoadFactor100, (mMask + 1) / 2) < |Model|
      ensures mInfo != old(mInfo) <==>
        old(mMask) + 1 > INITIAL_NUM_ELEMENTS &&
        old(mNumElements) <= CalcMaxNumElementsAllowed(maxLoadFactor100, (old(mMask) + 1) / 2)
      ensures if mInfo == old(mInfo) then unchanged(this) && ok
              else fresh(mInfo) && fresh(mKeyVals) && mMask + 1 >= INITIAL_NUM_ELEMENTS
    {
      hide Valid, State, Stored, CalcMaxNumElementsAllowed, PowerOfTwo, EarlierCrowded;
      ValidStored();
      ValidBounds();
      ValidSize();
      var newSize := FittingSize(mNumElements);
      FitsBetter(maxLoadFactor100, newSize, mMask + 1, mNumElements);
      if newSize < mMask + 1 {
        ok := Rehash(newSize);
      } else {
        AllowedGrows(maxLoadFactor100, (mMask + 1) / 2, newSize / 2);
        ok := true;
      }
    }
  }
}
