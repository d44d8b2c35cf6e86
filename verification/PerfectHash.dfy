/** perfect_hash: the graph whose vertex values make a perfect hash, the salted hash functions that draw its edges,
    and the trial loop that looks for an acyclic graph. */
module PerfectHash {
  import opened Arithmetic
  import opened Counting
  import opened EdgeForest
  import opened PerfectHashGraph
  import opened PerfectHashSearch
  import opened PerfectHashValues

  lemma VisitsBounded(edges: seq<Edge>, n: nat, order: seq<Visit>, tree: nat, visited: seq<bool>)
    requires Visited(edges, n, order, tree, visited)
    ensures |order| <= n
  {
    DistinctBound(seq(|order|, i requires 0 <= i < |order| => order[i].vertex), n);
  }

  lemma SearchStart(edges: seq<Edge>, n: nat)
    requires EdgesBelow(edges, n)
    ensures Searching(edges, n, [], 0, seq(n, _ => false), [], [])
    ensures edges != [] ==> n > 0
    ensures Valued(edges, n, seq(n, _ => false), [], [], seq(n, _ => -1))
  {
    hide Searching, AddsUp, OnTop;
    if edges != [] {
      assert edges[0].vertex1 < n;
    }
    NothingVisited(edges, n);
  }

  lemma NothingVisited(edges: seq<Edge>, n: nat)
    requires EdgesBelow(edges, n)
    ensures Searching(edges, n, [], 0, seq(n, _ => false), [], [])
  {
  }

  lemma RootPushed(edges: seq<Edge>, n: nat, order: seq<Visit>, visited: seq<bool>, root: nat, values: seq<int>)
    requires Searching(edges, n, order, |order|, visited, [], []) && root < n && !visited[root]
    requires Valued(edges, n, visited, [], [], values)
    ensures Searching(edges, n, order, |order|, visited, [ToVisit(None, root)], [-1])
    ensures Valued(edges, n, visited, [ToVisit(None, root)], [-1], values[root := 0])
  {
    forall k | 0 <= k < |edges| && visited[edges[k].vertex1] && visited[edges[k].vertex2]
      ensures AddsUp(edges[k], values[root := 0], n)
    {
      assert AddsUp(edges[k], values, n);
    }
  }

  /** When no visit is pending the current tree is finished. */
  lemma TreeFinished(edges: seq<Edge>, n: nat, order: seq<Visit>, tree: nat, visited: seq<bool>)
    requires Searching(edges, n, order, tree, visited, [], [])
    ensures Searching(edges, n, order, |order|, visited, [], [])
  {
    assert order[..|order|] == order;
    forall k | 0 <= k < |edges| ensures Seen(order, edges[k].vertex1) <==> Seen(order, edges[k].vertex2) {
      assert visited[edges[k].vertex1] == visited[edges[k].vertex2];
    }
  }

  lemma AllVisited(edges: seq<Edge>, n: nat, order: seq<Visit>, visited: seq<bool>, values: seq<int>)
    requires Searching(edges, n, order, |order|, visited, [], []) && Valued(edges, n, visited, [], [], values)
    requires forall v :: 0 <= v < n ==> visited[v]
    ensures !Cyclic(edges) && |values| == n && forall v :: 0 <= v < n ==> 0 <= values[v] < n
    ensures forall k :: 0 <= k < |edges| ==>
      n > 0 && edges[k].vertex1 < n && edges[k].vertex2 < n && AddsUp(edges[k], values, n)
  {
    hide AddsUp;
    forall e | e in edges ensures Seen(order, e.vertex1) && Seen(order, e.vertex2) {
      var k :| 0 <= k < |edges| && edges[k] == e;
    }
    ExploredIsForest(edges, order);
  }

  /** What one more edge appends to the list of v. */
  function NewEntries(e: Edge, v: nat): (r: seq<(nat, int)>) {
    (if e.vertex1 == v then [(e.vertex2, e.value)] else []) + if e.vertex2 == v then [(e.vertex1, e.value)] else []
  }

  lemma LinkedMore(edges: seq<Edge>, v: nat, list: seq<(nat, int)>, e: Edge)
    requires Linked(edges, v, list)
    ensures Linked(edges + [e], v, list + NewEntries(e, v))
  {
    assert (edges + [e])[..|edges|] == edges;
  }

  class Graph {
    const N: nat
    var adjacent: map<nat, seq<(nat, int)>>
    var vertexValues: seq<int>
    ghost var edges: seq<Edge>

    function Adjacent(v: nat): seq<(nat, int)>
      reads this`adjacent
    {
      if v in adjacent then adjacent[v] else []
    }

    ghost predicate Valid()
      reads this`adjacent, this`edges
    {
      EdgesBelow(edges, N) && forall v: nat :: v < N ==> Linked(edges, v, Adjacent(v))
    }

    constructor (n: nat)
      ensures Valid() && N == n && edges == []
    {
      N, adjacent, vertexValues, edges := n, map[], [], [];
    }

    /** connect: one more edge, entered at both its ends. */
    method Connect(vertex1: nat, vertex2: nat, edgeValue: int)
      requires Valid() && vertex1 < N && vertex2 < N
      modifies this`adjacent, this`edges
      ensures Valid() && edges == old(edges) + [Edge(vertex1, vertex2, edgeValue)]
    {
      hide Linked;
      ghost var e := Edge(vertex1, vertex2, edgeValue);
      forall v: nat | v < N ensures Linked(edges + [e], v, Adjacent(v) + NewEntries(e, v)) {
        LinkedMore(edges, v, Adjacent(v), e);
      }
      adjacent := adjacent[vertex1 := Adjacent(vertex1) + [(vertex2, edgeValue)]];
      adjacent := adjacent[vertex2 := Adjacent(vertex2) + [(vertex1, edgeValue)]];
      edges := edges + [e];
      forall v: nat | v < N ensures Linked(edges, v, Adjacent(v)) {
        assert Adjacent(v) == old(Adjacent(v)) + NewEntries(e, v);
      }
    }

    lemma ListBelow(v: nat)
      requires Valid() && v < N
      ensures Linked(edges, v, Adjacent(v)) && forall j :: 0 <= j < |Adjacent(v)| ==> Adjacent(v)[j].0 < N
    {
      forall j | 0 <= j < |Adjacent(v)| ensures Adjacent(v)[j].0 < N {
        EntriesSound(edges, v, j);
      }
    }

    lemma ValidEdges()
      requires Valid()
      ensures EdgesBelow(edges, N)
    {
    }

    lemma SearchingShape(order: seq<Visit>, tree: nat, visited: seq<bool>, stack: seq<ToVisit>, ids: seq<int>)
      requires Searching(edges, N, order, tree, visited, stack, ids)
      requires Valued(edges, N, visited, stack, ids, vertexValues)
      ensures |visited| == N == |vertexValues| && |ids| == |stack| && |order| <= N
      ensures stack != [] ==> stack[|stack| - 1].vertex < N
    {
      VisitsBounded(edges, N, order, tree, visited);
    }

    lemma NowVisiting(order: seq<Visit>, tree: nat, visited: seq<bool>, stack: seq<ToVisit>, ids: seq<int>,
                      list: seq<(nat, int)>)
      requires Searching(edges, N, order, tree, visited, stack, ids) && stack != [] && |ids| == |stack| &&
        |visited| == N
      requires stack[|stack| - 1].vertex < N && Linked(edges, stack[|stack| - 1].vertex, list)
      requires forall j :: 0 <= j < |list| ==> list[j].0 < N
      requires forall j :: 0 <= j < |list| && j != SkipIndex(list, stack[|stack| - 1].parent) ==>
        !visited[stack[|stack| - 1].vertex := true][list[j].0]
      ensures Visiting(edges, N, order, tree, visited, stack, ids, list)
    {
    }

    /** The tree at root: visits everything that can be reached, unless that closes a cycle. */
    method Explore(root: nat, visited0: seq<bool>, ghost order0: seq<Visit>)
      returns (ok: bool, visited: seq<bool>, ghost order: seq<Visit>)
      requires Valid() && Searching(edges, N, order0, |order0|, visited0, [], []) && |visited0| == N == |vertexValues|
      requires Valued(edges, N, visited0, [], [], vertexValues) && root < N && !visited0[root]
      modifies this`vertexValues
      ensures !ok ==> Cyclic(edges)
      ensures ok ==>
        Searching(edges, N, order, |order|, visited, [], []) && Valued(edges, N, visited, [], [], vertexValues)
      ensures ok ==> |visited| == N && visited[root] && forall v :: 0 <= v < N && visited0[v] ==> visited[v]
    {
      hide Valid, Searching, Visiting, Valued, Cyclic, NewVisit, Pushed, PushedIds, SkipIndex, Linked, Entries,
        ValuesFrom;
      RootPushed(edges, N, order0, visited0, root, vertexValues);
      visited, order := visited0, order0;
      ghost var tree := |order0|;
      vertexValues := vertexValues[root := 0];
      var tovisit := [ToVisit(None, root)];
      ghost var ids := [-1];
      while tovisit != []
        invariant Valid() && Searching(edges, N, order, tree, visited, tovisit, ids)
        invariant Valued(edges, N, visited, tovisit, ids, vertexValues)
        invariant |visited| == N && forall v :: 0 <= v < N && visited0[v] ==> visited[v]
        invariant visited[root] || tovisit == [ToVisit(None, root)]
        decreases N - |order|
      {
        SearchingShape(order, tree, visited, tovisit, ids);
        var top := |tovisit| - 1;
        var ToVisit(parent, vertex) := tovisit[top];
        ListBelow(vertex);
        var list := Adjacent(vertex);
        var values := vertexValues;
        var works, tovisit', values', bad :=
          ScanNeighbors(list, parent, vertex, N, visited[vertex := true], tovisit[..top], values);
        if !works {
          VisitFails(edges, N, order, tree, visited, tovisit, ids, list, bad);
          return false, visited, order;
        }
        NowVisiting(order, tree, visited, tovisit, ids, list);
        VisitWorks(edges, N, order, tree, visited, tovisit, ids, list);
        ValuesWork(edges, N, order, tree, visited, tovisit, ids, list, SkipIndex(list, parent), values, values');
        order := order + [NewVisit(order, tree, tovisit[top], ids[top])];
        visited := visited[vertex := true];
        ids := ids[..top] + PushedIds(Entries(edges, vertex), SkipIndex(list, parent));
        tovisit, vertexValues := tovisit', values';
        SearchingShape(order, tree, visited, tovisit, ids);
      }
      SearchingShape(order, tree, visited, tovisit, ids);
      TreeFinished(edges, N, order, tree, visited);
      ok := true;
    }

    /** assign_vertex_values: succeeds exactly when the graph is a forest, and then the values of the two ends of
        every edge add up to its value. */
    method AssignVertexValues() returns (ok: bool)
      requires Valid()
      modifies this`vertexValues
      ensures ok <==> !Cyclic(edges)
      ensures ok ==> |vertexValues| == N && forall v :: 0 <= v < N ==> 0 <= vertexValues[v] < N
      ensures ok ==> forall k :: 0 <= k < |edges| ==>
        N > 0 && edges[k].vertex1 < N && edges[k].vertex2 < N && AddsUp(edges[k], vertexValues, N)
    {
      hide Valid, Searching, Valued, Cyclic, AddsUp, EdgesBelow;
      ValidEdges();
      SearchStart(edges, N);
      vertexValues := seq(N, _ => -1);
      var visited := seq(N, _ => false);
      ghost var order := [];
      for root := 0 to N
        invariant Valid() && Searching(edges, N, order, |order|, visited, [], [])
        invariant Valued(edges, N, visited, [], [], vertexValues)
        invariant |visited| == N == |vertexValues| && forall v :: 0 <= v < root ==> visited[v]
      {
        if visited[root] {
          continue;
        }
        var works;
        works, visited, order := Explore(root, visited, order);
        if !works {
          return false;
        }
        SearchingShape(order, |order|, visited, [], []);
      }
      AllVisited(edges, N, order, visited, vertexValues);
      ok := true;
    }
  }

  // ---- salted hash functions -------------------------------------------------------------------------------

  /** The bytes of a key, each multiplied by the salt at its place, summed up. */
  function SaltedSum(salt: seq<nat>, key: seq<nat>): nat
    requires |key| <= |salt|
  {
    if key == [] then 0
    else SaltedSum(salt, key[..|key| - 1]) + salt[|key| - 1] * key[|key| - 1]
  }

  function HashValue(salt: seq<nat>, key: seq<nat>, n: nat): (h: nat)
    requires |key| <= |salt| && n > 0
    ensures h < n
  {
    SaltedSum(salt, key) % n
  }

  /** More salt does not change the hash of a key that had enough. */
  lemma {:induction false} SaltGrows(salt: seq<nat>, salt': seq<nat>, key: seq<nat>)
    requires |key| <= |salt| && salt <= salt'
    ensures SaltedSum(salt', key) == SaltedSum(salt, key)
    decreases |key|
  {
    if key != [] {
      SaltGrows(salt, salt', key[..|key| - 1]);
    }
  }

  /** What one byte of a key counts for is its salt, and nothing else counts. */
  lemma {:induction false} SaltWeighs(salt: seq<nat>, key: seq<nat>, i: nat, c: nat)
    requires i < |key| <= |salt|
    ensures SaltedSum(salt, key[i := c]) == SaltedSum(salt, key) + salt[i] * (c - key[i])
    decreases |key|
  {
    var last := |key| - 1;
    if i < last {
      assert key[i := c][..last] == key[..last][i := c];
      SaltWeighs(salt, key[..last], i, c);
    } else {
      assert key[i := c][..last] == key[..last];
      MoreOften(salt[i], key[i], c - key[i]);
    }
  }

  lemma MoreOften(x: int, y: int, d: int)
    ensures x * (y + d) == x * y + x * d
  {
  }

  lemma {:induction false} ZerosWeighNothing(salt: seq<nat>, key: seq<nat>)
    requires |key| <= |salt| && forall i :: 0 <= i < |key| ==> key[i] == 0
    ensures SaltedSum(salt, key) == 0
    decreases |key|
  {
    if key != [] {
      ZerosWeighNothing(salt, key[..|key| - 1]);
    }
  }

  /** StrSaltHash draws letters and digits, IntSaltHash numbers below the modulus. */
  datatype SaltKind = StrSalt | IntSalt

  predicate LetterOrDigit(c: nat) {
    48 <= c <= 57 || 65 <= c <= 90 || 97 <= c <= 122
  }

  const ANUM_CHARS: nat := 62

  /** The letters, small and large, then the digits. */
  function AnumChar(i: nat): (c: nat)
    requires i < ANUM_CHARS
    ensures LetterOrDigit(c)
  {
    if i < 26 then 97 + i else if i < 52 then 65 + (i - 26) else 48 + (i - 52)
  }

  /** Whether there is anything to draw from. */
  predicate CanDraw(kind: SaltKind, n: nat) {
    kind.IntSalt? ==> n > 1
  }

  predicate IsSalt(kind: SaltKind, n: nat, c: nat) {
    if kind.StrSalt? then LetterOrDigit(c) else 1 <= c < n
  }

  /** random.choice and random.randrange: what a number from the random source makes of the salt. */
  function Choice(kind: SaltKind, n: nat, random: nat): (c: nat)
    requires CanDraw(kind, n)
    ensures IsSalt(kind, n, c)
  {
    if kind.StrSalt? then AnumChar(random % ANUM_CHARS) else 1 + random % (n - 1)
  }

  /** Everything that may be salt can be drawn. */
  lemma EverySalt(kind: SaltKind, n: nat, c: nat) returns (random: nat)
    requires CanDraw(kind, n) && IsSalt(kind, n, c)
    ensures Choice(kind, n, random) == c
  {
    if kind.IntSalt? {
      random := c - 1;
      SmallRemainder(c - 1, n - 1);
    } else {
      random := if c >= 97 then c - 97 else if c >= 65 then c - 65 + 26 else c - 48 + 52;
    }
  }

  /** The first len bytes or numbers of salt drawn. */
  function Salt(kind: SaltKind, n: nat, draws: nat -> nat, len: nat): (salt: seq<nat>)
    requires len > 0 ==> CanDraw(kind, n)
    ensures |salt| == len && forall i :: 0 <= i < len ==> IsSalt(kind, n, salt[i])
  {
    if len == 0 then [] else Salt(kind, n, draws, len - 1) + [Choice(kind, n, draws(len - 1))]
  }

  lemma SaltNext(kind: SaltKind, n: nat, draws: nat -> nat, len: nat)
    requires CanDraw(kind, n)
    ensures Salt(kind, n, draws, len + 1) == Salt(kind, n, draws, len) + [Choice(kind, n, draws(len))]
  {
  }

  lemma {:induction false} SaltPrefix(kind: SaltKind, n: nat, draws: nat -> nat, len: nat, len': nat)
    requires CanDraw(kind, n) && len <= len'
    ensures Salt(kind, n, draws, len) <= Salt(kind, n, draws, len')
    decreases len'
  {
    if len < len' {
      SaltPrefix(kind, n, draws, len, len' - 1);
    }
  }

  /** A hash function; draws are the numbers that the random source has for it. */
  class SaltHash {
    const kind: SaltKind
    const N: nat
    const draws: nat -> nat
    var salt: seq<nat>

    /** The salt is what has been drawn so far. */
    ghost predicate Valid()
      reads this`salt
    {
      (salt != [] ==> CanDraw(kind, N)) && salt == Salt(kind, N, draws, |salt|)
    }

    constructor (kind: SaltKind, n: nat, draws: nat -> nat)
      ensures Valid() && this.kind == kind && N == n && this.draws == draws && salt == []
    {
      this.kind, N, this.draws, salt := kind, n, draws, [];
    }

    /** __call__: draws just as much more salt as the key is longer than all before it. */
    method Call(key: seq<nat>) returns (h: nat)
      requires Valid() && N > 0 && CanDraw(kind, N)
      modifies this`salt
      ensures Valid() && |salt| == Longer(old(|salt|), |key|) && old(salt) <= salt
      ensures h == KeyHash(kind, N, draws, key)
    {
      hide Choice, Salt, SaltedSum;
      while |salt| < |key|
        invariant Valid() && old(salt) <= salt && |salt| <= Longer(old(|salt|), |key|)
      {
        SaltNext(kind, N, draws, |salt|);
        salt := salt + [Choice(kind, N, draws(|salt|))];
      }
      var sum := WeighedSum(key);
      KeyHashed(kind, N, draws, key, |salt|);
      h := sum % N;
    }

    /** The generator expression in __call__. */
    method WeighedSum(key: seq<nat>) returns (sum: nat)
      requires |key| <= |salt|
      ensures sum == SaltedSum(salt, key)
    {
      sum := 0;
      for i := 0 to |key|
        invariant sum == SaltedSum(salt, key[..i])
      {
        assert key[..i + 1][..i] == key[..i];
        sum := sum + salt[i] * key[i];
      }
      assert key[..|key|] == key;
    }
  }

  function Longer(x: nat, y: nat): nat {
    if x < y then y else x
  }

  /** The hash of a key with the salt drawn for it. */
  function KeyHash(kind: SaltKind, n: nat, draws: nat -> nat, key: seq<nat>): (h: nat)
    requires n > 0 && CanDraw(kind, n)
    ensures h < n
  {
    HashValue(Salt(kind, n, draws, |key|), key, n)
  }

  // ---- the trial loop --------------------------------------------------------------------------------------

  const TRIALS: nat := 50

  datatype Outcome = Found(f1: SaltHash, f2: SaltHash, g: seq<int>) | DuplicateKeys | TooManyIterations

  /** The emitted lookup: G[f1(key)] + G[f2(key)], modulo the number of vertices. */
  function Lookup(salt1: seq<nat>, salt2: seq<nat>, g: seq<int>, key: seq<nat>): int
    requires |g| > 0 && |key| <= |salt1| && |key| <= |salt2|
  {
    (g[HashValue(salt1, key, |g|)] + g[HashValue(salt2, key, |g|)]) % |g|
  }

  /** The length of the longest key. */
  function Longest(keys: seq<seq<nat>>): (len: nat)
    ensures forall i :: 0 <= i < |keys| ==> |keys[i]| <= len
  {
    if keys == [] then 0 else Longer(Longest(keys[..|keys| - 1]), |keys[|keys| - 1]|)
  }

  /** The graph of a trial with n vertices: an edge for each key, between its two hashes. */
  function Drawn(keys: seq<seq<nat>>, kind: SaltKind, n: nat, draws1: nat -> nat, draws2: nat -> nat):
      (edges: seq<Edge>)
    requires n > |keys|
  {
    seq(|keys|, i requires 0 <= i < |keys| =>
      Edge(KeyHash(kind, n, draws1, keys[i]), KeyHash(kind, n, draws2, keys[i]), i))
  }

  lemma DrawnNext(keys: seq<seq<nat>>, kind: SaltKind, n: nat, draws1: nat -> nat, draws2: nat -> nat, i: nat)
    requires n > |keys| && i < |keys|
    ensures ghost var edges := Drawn(keys, kind, n, draws1, draws2);
      |edges| == |keys| &&
      edges[..i + 1] ==
        edges[..i] + [Edge(KeyHash(kind, n, draws1, keys[i]), KeyHash(kind, n, draws2, keys[i]), i)]
  {
    hide KeyHash;
  }

  lemma DrawnEnds(keys: seq<seq<nat>>, kind: SaltKind, n: nat, draws1: nat -> nat, draws2: nat -> nat)
    requires n > |keys|
    ensures ghost var edges := Drawn(keys, kind, n, draws1, draws2);
      |edges| == |keys| && edges[..0] == [] && edges[..|keys|] == edges
  {
    hide KeyHash;
  }

  lemma LongestNext(keys: seq<seq<nat>>, i: nat)
    requires i < |keys|
    ensures Longest(keys[..i + 1]) == Longer(Longest(keys[..i]), |keys[i]|)
  {
    assert keys[..i + 1][..i] == keys[..i];
  }

  lemma LongestEnds(keys: seq<seq<nat>>)
    ensures Longest(keys[..0]) == 0 && keys[..|keys|] == keys
  {
  }

  lemma DrawnLookup(keys: seq<seq<nat>>, kind: SaltKind, n: nat, draws1: nat -> nat, draws2: nat -> nat, g: seq<int>,
                    i: nat)
    requires |keys| < n == |g| && i < |keys|
    requires AddsUp(Drawn(keys, kind, n, draws1, draws2)[i], g, n)
    ensures ghost var len := Longest(keys);
      Lookup(Salt(kind, n, draws1, len), Salt(kind, n, draws2, len), g, keys[i]) == i
  {
    hide Longest, KeyHash, HashValue, Salt;
    KeyHashed(kind, n, draws1, keys[i], Longest(keys));
    KeyHashed(kind, n, draws2, keys[i], Longest(keys));
    SmallRemainder(i, n);
  }

  lemma KeyHashed(kind: SaltKind, n: nat, draws: nat -> nat, key: seq<nat>, len: nat)
    requires n > 0 && CanDraw(kind, n) && |key| <= len
    ensures KeyHash(kind, n, draws, key) == HashValue(Salt(kind, n, draws, len), key, n)
  {
    hide SaltedSum, Salt;
    SaltPrefix(kind, n, draws, |key|, len);
    SaltGrows(Salt(kind, n, draws, |key|), Salt(kind, n, draws, len), key);
  }

  lemma SmallRemainder(i: nat, n: nat)
    requires i < n
    ensures i % n == i
  {
    RemainderUnique(i, n, 0, i);
  }

  /** How far a run of trials is from the next growth of the graph. */
  function TrialsLeft(trial: nat): nat {
    if trial == 0 then TRIALS else if trial % TRIALS == 0 then 0 else TRIALS - trial % TRIALS
  }

  /** One trial: the graph drawn, and its vertex values if it is acyclic. */
  method Trial(keys: seq<seq<nat>>, kind: SaltKind, n: nat, draws1: nat -> nat, draws2: nat -> nat)
    returns (ok: bool, f1: SaltHash, f2: SaltHash, g: seq<int>)
    requires n > |keys|
    ensures fresh(f1) && fresh(f2)
    ensures f1.salt == Salt(kind, n, draws1, Longest(keys)) && f2.salt == Salt(kind, n, draws2, Longest(keys))
    ensures ok <==> !Cyclic(Drawn(keys, kind, n, draws1, draws2))
    ensures ok ==> |g| == n && forall v :: 0 <= v < n ==> 0 <= g[v] < n
    ensures ok ==> forall i :: 0 <= i < |keys| ==> Lookup(f1.salt, f2.salt, g, keys[i]) == i
  {
    hide AddsUp, Cyclic, Lookup, KeyHash, Salt, Drawn, Longest;
    var graph := new Graph(n);
    f1 := new SaltHash(kind, n, draws1);
    f2 := new SaltHash(kind, n, draws2);
    DrawnEnds(keys, kind, n, draws1, draws2);
    LongestEnds(keys);
    for i := 0 to |keys|
      invariant graph.Valid() && graph.edges == Drawn(keys, kind, n, draws1, draws2)[..i]
      invariant f1.Valid() && f2.Valid() && |f1.salt| == |f2.salt| == Longest(keys[..i])
    {
      DrawnNext(keys, kind, n, draws1, draws2, i);
      LongestNext(keys, i);
      var v1 := f1.Call(keys[i]);
      var v2 := f2.Call(keys[i]);
      graph.Connect(v1, v2, i);
    }
    ok := graph.AssignVertexValues();
    g := graph.vertexValues;
    if ok {
      AllLookedUp(keys, kind, n, draws1, draws2, g);
    }
  }

  lemma AllLookedUp(keys: seq<seq<nat>>, kind: SaltKind, n: nat, draws1: nat -> nat, draws2: nat -> nat, g: seq<int>)
    requires |keys| < n == |g|
    requires ghost var edges := Drawn(keys, kind, n, draws1, draws2);
      forall k :: 0 <= k < |edges| ==> edges[k].vertex1 < n && edges[k].vertex2 < n && AddsUp(edges[k], g, n)
    ensures ghost var len := Longest(keys);
      forall i :: 0 <= i < |keys| ==>
        Lookup(Salt(kind, n, draws1, len), Salt(kind, n, draws2, len), g, keys[i]) == i
  {
    hide AddsUp, Lookup, Salt, Longest, KeyHash;
    forall i | 0 <= i < |keys|
      ensures ghost var len := Longest(keys);
        Lookup(Salt(kind, n, draws1, len), Salt(kind, n, draws2, len), g, keys[i]) == i
    {
      DrawnLookup(keys, kind, n, draws1, draws2, g, i);
    }
  }

  /** One vertex more than keys, or the next power of two from ng on. */
  function FirstSize(k: nat, pow2: bool): (n: nat) {
    if pow2 then DoubledTo(1, k + 1) else k + 1
  }

  function DoubledTo(ng: nat, least: nat): nat
    requires ng > 0
    decreases least - ng
  {
    if ng < least then DoubledTo(ng * 2, least) else ng
  }

  function Grown(ng: nat, pow2: bool): nat {
    if pow2 then ng * 2 else if ng + 1 < 105 * ng / 100 then 105 * ng / 100 else ng + 1
  }

  /** The number of vertices of the graph when trial number t begins: it grows after every TRIALS trials. */
  function SizeAt(k: nat, pow2: bool, t: nat): nat {
    if t == 0 then FirstSize(k, pow2)
    else if t % TRIALS == 0 then Grown(SizeAt(k, pow2, t - 1), pow2)
    else SizeAt(k, pow2, t - 1)
  }

  predicate PowerOfTwo(x: nat) {
    x == 1 || (x > 1 && x % 2 == 0 && PowerOfTwo(x / 2))
  }

  lemma {:induction false} DoubledPower(ng: nat, least: nat)
    requires PowerOfTwo(ng)
    ensures PowerOfTwo(DoubledTo(ng, least)) && (least > ng ==> DoubledTo(ng, least) < 2 * least)
    decreases least - ng
  {
    if ng < least {
      assert PowerOfTwo(ng * 2);
      DoubledPower(ng * 2, least);
    }
  }

  /** With pow2 all sizes are powers of two. */
  lemma {:induction false} SizePower(k: nat, t: nat)
    ensures PowerOfTwo(SizeAt(k, true, t))
  {
    if t > 0 {
      SizePower(k, t - 1);
      assert PowerOfTwo(Grown(SizeAt(k, true, t - 1), true));
    } else {
      DoubledPower(1, k + 1);
    }
  }

  lemma SizeStep(k: nat, pow2: bool, t: nat, ng: nat)
    requires ng == SizeAt(k, pow2, if t == 0 then 0 else t - 1)
    ensures SizeAt(k, pow2, t) == if t % TRIALS == 0 && t > 0 then Grown(ng, pow2) else ng
  {
  }

  /** The graph of trial number t, counted from 0; each hash function draws its own salt. */
  function GraphAt(keys: seq<seq<nat>>, kind: SaltKind, pow2: bool, draws: nat -> nat -> nat, t: nat):
      (edges: seq<Edge>)
  {
    SizeBounds(|keys|, pow2, t);
    Drawn(keys, kind, SizeAt(|keys|, pow2, t), draws(2 * t), draws(2 * t + 1))
  }

  lemma {:induction false} SizeBounds(k: nat, pow2: bool, t: nat)
    ensures SizeAt(k, pow2, t) > k
  {
    if t > 0 {
      SizeBounds(k, pow2, t - 1);
    } else if pow2 {
      DoubledEnough(1, k + 1);
    }
  }

  lemma {:induction false} DoubledEnough(ng: nat, least: nat)
    requires ng > 0
    ensures DoubledTo(ng, least) >= least
    decreases least - ng
  {
    if ng < least {
      DoubledEnough(ng * 2, least);
    }
  }

  /** The graph never gets smaller. */
  lemma {:induction false} SizeGrows(k: nat, pow2: bool, t: nat, t': nat)
    requires t <= t'
    ensures SizeAt(k, pow2, t) <= SizeAt(k, pow2, t')
    decreases t'
  {
    if t < t' {
      SizeGrows(k, pow2, t, t' - 1);
    }
  }

  /** Trial t is made, as far as the size of its graph goes. */
  predicate Allowed(k: nat, pow2: bool, t: nat) {
    SizeAt(k, pow2, t) <= 100 * (k + 1)
  }

  /** The first n trials are made, and their graphs have cycles. */
  ghost predicate AllFailed(keys: seq<seq<nat>>, kind: SaltKind, pow2: bool, draws: nat -> nat -> nat, n: nat) {
    forall t :: 0 <= t < n ==> Allowed(|keys|, pow2, t) && Cyclic(GraphAt(keys, kind, pow2, draws, t))
  }

  /** Some trial that is made has a graph without cycles. */
  ghost predicate SomeWorks(keys: seq<seq<nat>>, kind: SaltKind, pow2: bool, draws: nat -> nat -> nat) {
    exists t: nat :: Allowed(|keys|, pow2, t) && !Cyclic(GraphAt(keys, kind, pow2, draws, t))
  }

  lemma GraphDrawn(keys: seq<seq<nat>>, kind: SaltKind, pow2: bool, draws: nat -> nat -> nat, t: nat, ng: nat)
    requires ng == SizeAt(|keys|, pow2, t)
    ensures ng > |keys|
    ensures GraphAt(keys, kind, pow2, draws, t) == Drawn(keys, kind, ng, draws(2 * t), draws(2 * t + 1))
    ensures Allowed(|keys|, pow2, t) <==> ng <= 100 * (|keys| + 1)
  {
    SizeBounds(|keys|, pow2, t);
  }

  lemma OneMoreFailed(keys: seq<seq<nat>>, kind: SaltKind, pow2: bool, draws: nat -> nat -> nat, n: nat)
    requires AllFailed(keys, kind, pow2, draws, n) && Allowed(|keys|, pow2, n)
    requires Cyclic(GraphAt(keys, kind, pow2, draws, n))
    ensures AllFailed(keys, kind, pow2, draws, n + 1)
  {
    hide GraphAt, Allowed, Cyclic;
  }

  lemma OneWorks(keys: seq<seq<nat>>, kind: SaltKind, pow2: bool, draws: nat -> nat -> nat, n: nat)
    requires Allowed(|keys|, pow2, n) && !Cyclic(GraphAt(keys, kind, pow2, draws, n))
    ensures SomeWorks(keys, kind, pow2, draws)
  {
    hide GraphAt, Allowed, Cyclic;
  }

  lemma NoneWorks(keys: seq<seq<nat>>, kind: SaltKind, pow2: bool, draws: nat -> nat -> nat, n: nat)
    requires AllFailed(keys, kind, pow2, draws, n) && !Allowed(|keys|, pow2, n)
    ensures !SomeWorks(keys, kind, pow2, draws)
  {
    hide SizeAt, GraphAt, Cyclic;
    forall t: nat | t >= n ensures !Allowed(|keys|, pow2, t) {
      SizeGrows(|keys|, pow2, n, t);
    }
  }

  /** The first number of vertices. */
  method StartSize(k: nat, pow2: bool) returns (ng: nat)
    ensures ng == FirstSize(k, pow2) && k < ng < 2 * (k + 1)
  {
    ng := k + 1;
    if pow2 {
      ng := 1;
      while ng < k + 1
        invariant 1 <= ng < 2 * (k + 1) && DoubledTo(ng, k + 1) == FirstSize(k, true)
      {
        ng := ng * 2;
      }
    }
  }

  /** generate_hash: it finds functions and a table exactly if the keys are different and some trial before it gives up
      draws a graph without cycles, in the first such trial, and then key number i is looked up as i. It ends for
      every choice of salts, and gives up only when the next graph would have over a hundred vertices per key. */
  method GenerateHash(keys: seq<seq<nat>>, kind: SaltKind, pow2: bool, draws: nat -> nat -> nat)
    returns (r: Outcome, ghost failed: nat)
    ensures r.DuplicateKeys? <==> !Distinct(keys)
    ensures r.Found? <==> Distinct(keys) && SomeWorks(keys, kind, pow2, draws)
    ensures AllFailed(keys, kind, pow2, draws, failed)
    ensures r.TooManyIterations? ==> failed >= TRIALS && !Allowed(|keys|, pow2, failed)
    ensures r.Found? ==> Allowed(|keys|, pow2, failed) && !Cyclic(GraphAt(keys, kind, pow2, draws, failed))
    ensures r.Found? ==> |keys| < |r.g| == SizeAt(|keys|, pow2, failed)
    ensures r.Found? ==>
      r.f1.salt == Salt(kind, |r.g|, draws(2 * failed), Longest(keys)) &&
      r.f2.salt == Salt(kind, |r.g|, draws(2 * failed + 1), Longest(keys))
    ensures r.Found? ==> forall v :: 0 <= v < |r.g| ==> 0 <= r.g[v] < |r.g|
    ensures r.Found? ==> forall i :: 0 <= i < |keys| ==> Lookup(r.f1.salt, r.f2.salt, r.g, keys[i]) == i
  {
    hide Lookup, Salt, Drawn, Cyclic, SizeAt, FirstSize, GraphAt, AllFailed, SomeWorks, Allowed, Longest;
    failed := 0;
    NoneFailed(keys, kind, pow2, draws);
    if exists i, j :: 0 <= i < j < |keys| && keys[i] == keys[j] {
      return DuplicateKeys, 0;
    }
    var ng := StartSize(|keys|, pow2);
    var trial := 0;
    while true
      invariant |keys| < ng <= 100 * (|keys| + 1) && trial == failed
      invariant ng == SizeAt(|keys|, pow2, if trial == 0 then 0 else trial - 1)
      invariant AllFailed(keys, kind, pow2, draws, failed)
      decreases 100 * (|keys| + 1) - ng, TrialsLeft(trial)
    {
      SizeStep(|keys|, pow2, trial, ng);
      ghost var t := trial;
      if trial % TRIALS == 0 && trial > 0 {
        if pow2 {
          ng := ng * 2;
        } else {
          ng := if ng + 1 < 105 * ng / 100 then 105 * ng / 100 else ng + 1;
        }
      }
      trial := trial + 1;
      GraphDrawn(keys, kind, pow2, draws, t, ng);
      if ng > 100 * (|keys| + 1) {
        NoneWorks(keys, kind, pow2, draws, t);
        return TooManyIterations, t;
      }
      var ok, f1, f2, g := Trial(keys, kind, ng, draws(2 * (trial - 1)), draws(2 * (trial - 1) + 1));
      if ok {
        OneWorks(keys, kind, pow2, draws, t);
        return Found(f1, f2, g), t;
      }
      OneMoreFailed(keys, kind, pow2, draws, t);
      failed := trial;
    }
  }

  lemma NoneFailed(keys: seq<seq<nat>>, kind: SaltKind, pow2: bool, draws: nat -> nat -> nat)
    ensures AllFailed(keys, kind, pow2, draws, 0) && SizeAt(|keys|, pow2, 0) == FirstSize(|keys|, pow2)
  {
  }
}
