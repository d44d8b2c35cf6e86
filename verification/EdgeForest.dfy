/** Multigraphs given by a list of edges with values, cycles in them, and the visiting order of a search that meets
    no cycle. Parallel edges and edges from a vertex to itself are cycles. */
module EdgeForest {

  datatype Edge = Edge(vertex1: nat, vertex2: nat, value: int)

  predicate Joins(e: Edge, a: nat, b: nat) {
    (e.vertex1 == a && e.vertex2 == b) || (e.vertex1 == b && e.vertex2 == a)
  }

  // ---- walks and cycles ------------------------------------------------------------------------------------

  datatype Hop = Hop(edge: nat, to: nat)

  /** A walk from a to b over edges other than k. */
  predicate IsWalk(edges: seq<Edge>, k: nat, a: nat, hops: seq<Hop>, b: nat)
    decreases |hops|
  {
    if hops == [] then a == b
    else hops[0].edge < |edges| && hops[0].edge != k && Joins(edges[hops[0].edge], a, hops[0].to) &&
         IsWalk(edges, k, hops[0].to, hops[1..], b)
  }

  ghost predicate Connected(edges: seq<Edge>, k: nat, a: nat, b: nat) {
    exists hops :: IsWalk(edges, k, a, hops, b)
  }

  /** Some edge lies on a cycle: its ends are connected without it. */
  ghost predicate Cyclic(edges: seq<Edge>) {
    exists k :: 0 <= k < |edges| && Connected(edges, k, edges[k].vertex1, edges[k].vertex2)
  }

  lemma {:induction false} WalksJoin(edges: seq<Edge>, k: nat, a: nat, p: seq<Hop>, b: nat, q: seq<Hop>, c: nat)
    requires IsWalk(edges, k, a, p, b) && IsWalk(edges, k, b, q, c)
    ensures IsWalk(edges, k, a, p + q, c)
    decreases |p|
  {
    if p == [] {
      assert p + q == q;
    } else {
      WalksJoin(edges, k, p[0].to, p[1..], b, q, c);
      assert (p + q)[1..] == p[1..] + q;
    }
  }

  lemma ConnectedTrans(edges: seq<Edge>, k: nat, a: nat, b: nat, c: nat)
    requires Connected(edges, k, a, b) && Connected(edges, k, b, c)
    ensures Connected(edges, k, a, c)
  {
    var p :| IsWalk(edges, k, a, p, b);
    var q :| IsWalk(edges, k, b, q, c);
    WalksJoin(edges, k, a, p, b, q, c);
  }

  lemma ConnectedRefl(edges: seq<Edge>, k: nat, a: nat)
    ensures Connected(edges, k, a, a)
  {
    assert IsWalk(edges, k, a, [], a);
  }

  lemma ConnectedStep(edges: seq<Edge>, k: nat, e: nat, a: nat, b: nat)
    requires e < |edges| && e != k && Joins(edges[e], a, b)
    ensures Connected(edges, k, a, b)
  {
    var hops := [Hop(e, b)];
    assert hops[1..] == [];
    assert IsWalk(edges, k, a, hops, b);
  }

  lemma {:induction false} WalkBack(edges: seq<Edge>, k: nat, a: nat, p: seq<Hop>, b: nat)
    requires IsWalk(edges, k, a, p, b)
    ensures Connected(edges, k, b, a)
    decreases |p|
  {
    if p == [] {
      ConnectedRefl(edges, k, a);
    } else {
      WalkBack(edges, k, p[0].to, p[1..], b);
      ConnectedStep(edges, k, p[0].edge, p[0].to, a);
      ConnectedTrans(edges, k, b, p[0].to, a);
    }
  }

  lemma ConnectedSym(edges: seq<Edge>, k: nat, a: nat, b: nat)
    requires Connected(edges, k, a, b)
    ensures Connected(edges, k, b, a)
  {
    var p :| IsWalk(edges, k, a, p, b);
    WalkBack(edges, k, a, p, b);
  }

  // ---- visiting orders -------------------------------------------------------------------------------------

  /** A visited vertex, with the edge it was reached by and the place of the visit it was reached from; both are
      -1 for a root. */
  datatype Visit = Visit(vertex: nat, edge: int, from: int)

  ghost predicate Seen(order: seq<Visit>, v: nat) {
    exists i :: 0 <= i < |order| && order[i].vertex == v
  }

  ghost predicate ReachedBy(edges: seq<Edge>, order: seq<Visit>, i: nat)
    requires i < |order|
  {
    -1 <= order[i].from < i &&
    (order[i].from >= 0 ==>
       (0 <= order[i].edge < |edges| && Joins(edges[order[i].edge], order[i].vertex, order[order[i].from].vertex)))
  }

  /** Every edge between visited vertices is the one by which the later of its ends was reached from the other. */
  ghost predicate Explored(edges: seq<Edge>, order: seq<Visit>) {
    (forall i, j :: 0 <= i < j < |order| ==> order[i].vertex != order[j].vertex) &&
    (forall i :: 0 <= i < |order| ==> ReachedBy(edges, order, i)) &&
    (forall i, j, k ::
      0 <= j <= i < |order| && 0 <= k < |edges| && Joins(edges[k], order[i].vertex, order[j].vertex) ==>
        j == order[i].from && k == order[i].edge)
  }

  /** One more visit, with no edge to the visited vertices but the one it was reached by. */
  lemma ExploredMore(edges: seq<Edge>, order: seq<Visit>, visit: Visit)
    requires Explored(edges, order) && !Seen(order, visit.vertex) && ReachedBy(edges, order + [visit], |order|)
    requires forall j, k ::
      0 <= j <= |order| && 0 <= k < |edges| && Joins(edges[k], visit.vertex, (order + [visit])[j].vertex) ==>
        j == visit.from && k == visit.edge
    ensures Explored(edges, order + [visit])
  {
    var order' := order + [visit];
    forall i | 0 <= i < |order| ensures ReachedBy(edges, order', i) {
      assert ReachedBy(edges, order, i);
    }
    forall i, j, k | 0 <= j <= i < |order'| && 0 <= k < |edges| && Joins(edges[k], order'[i].vertex, order'[j].vertex)
      ensures j == order'[i].from && k == order'[i].edge
    {
      if i < |order| {
        assert order'[i] == order[i] && order'[j] == order[j];
      } else {
        assert order'[i] == visit;
      }
    }
  }

  ghost predicate Under(order: seq<Visit>, i: nat, r: nat)
    requires i < |order|
  {
    i == r || (0 <= order[i].from < i && Under(order, order[i].from, r))
  }

  lemma {:induction false} UnderIsLater(order: seq<Visit>, i: nat, r: nat)
    requires i < |order| && Under(order, i, r)
    ensures r <= i
    decreases i
  {
    if i != r {
      UnderIsLater(order, order[i].from, r);
    }
  }

  /** A walk that avoids the edge into visit r stays under r, once it is there. */
  lemma {:induction false} WalkStaysUnder(edges: seq<Edge>, order: seq<Visit>, r: nat, i: nat, hops: seq<Hop>, b: nat)
    requires Explored(edges, order) && (forall e :: e in edges ==> Seen(order, e.vertex1) && Seen(order, e.vertex2))
    requires r < |order| && order[r].from >= 0 && order[r].edge >= 0 && i < |order| && Under(order, i, r)
    requires IsWalk(edges, order[r].edge, order[i].vertex, hops, b)
    ensures exists j :: 0 <= j < |order| && order[j].vertex == b && Under(order, j, r)
    decreases |hops|
  {
    if hops != [] {
      var k := hops[0].edge;
      assert edges[k] in edges;
      var j :| 0 <= j < |order| && order[j].vertex == hops[0].to;
      assert Joins(edges[k], order[i].vertex, order[j].vertex) && Joins(edges[k], order[j].vertex, order[i].vertex);
      if j <= i {
        assert j == order[i].from && k == order[i].edge;
      } else {
        assert i == order[j].from && k == order[j].edge;
      }
      WalkStaysUnder(edges, order, r, j, hops[1..], b);
    }
  }

  /** A graph explored as a whole has no cycle. */
  lemma ExploredIsForest(edges: seq<Edge>, order: seq<Visit>)
    requires Explored(edges, order) && (forall e :: e in edges ==> Seen(order, e.vertex1) && Seen(order, e.vertex2))
    ensures !Cyclic(edges)
  {
    forall k | 0 <= k < |edges| ensures !Connected(edges, k, edges[k].vertex1, edges[k].vertex2) {
      var e := edges[k];
      assert e in edges;
      var i :| 0 <= i < |order| && order[i].vertex == e.vertex1;
      var j :| 0 <= j < |order| && order[j].vertex == e.vertex2;
      assert Joins(e, order[i].vertex, order[j].vertex) && Joins(e, order[j].vertex, order[i].vertex);
      if Connected(edges, k, e.vertex1, e.vertex2) {
        if i <= j {
          ConnectedSym(edges, k, e.vertex1, e.vertex2);
          NoWayBack(edges, order, j, i);
        } else {
          NoWayBack(edges, order, i, j);
        }
      }
    }
  }

  lemma NoWayBack(edges: seq<Edge>, order: seq<Visit>, r: nat, p: nat)
    requires Explored(edges, order) && (forall e :: e in edges ==> Seen(order, e.vertex1) && Seen(order, e.vertex2))
    requires p < |order| && r < |order| && order[r].from == p && order[r].edge >= 0
    ensures !Connected(edges, order[r].edge, order[r].vertex, order[p].vertex)
  {
    assert ReachedBy(edges, order, r);
    forall hops | IsWalk(edges, order[r].edge, order[r].vertex, hops, order[p].vertex) ensures false {
      WalkStaysUnder(edges, order, r, r, hops, order[p].vertex);
      var j :| 0 <= j < |order| && order[j].vertex == order[p].vertex && Under(order, j, r);
      UnderIsLater(order, j, r);
    }
  }

  /** All visits from tree on were reached from the root at tree. */
  ghost predicate OneTree(order: seq<Visit>, tree: nat) {
    tree <= |order| && forall i :: tree < i < |order| ==> tree <= order[i].from < i
  }

  /** Within one tree all visits are connected, without any edge that leaves the visited vertices. */
  lemma {:induction false} TreeConnected(edges: seq<Edge>, order: seq<Visit>, tree: nat, i: nat, k: nat)
    requires Explored(edges, order) && OneTree(order, tree) && tree <= i < |order|
    requires k < |edges| && !(Seen(order, edges[k].vertex1) && Seen(order, edges[k].vertex2))
    ensures Connected(edges, k, order[i].vertex, order[tree].vertex)
    decreases i
  {
    if i == tree {
      ConnectedRefl(edges, k, order[tree].vertex);
    } else {
      var p := order[i].from;
      assert ReachedBy(edges, order, i);
      TreeConnected(edges, order, tree, p, k);
      assert order[i].edge != k by {
        assert order[i].vertex == order[i].vertex && order[p].vertex == order[p].vertex;
      }
      ConnectedStep(edges, k, order[i].edge, order[i].vertex, order[p].vertex);
      ConnectedTrans(edges, k, order[i].vertex, order[p].vertex, order[tree].vertex);
    }
  }

  /** A new vertex with two edges into one tree closes a cycle. */
  lemma TwoEdgesCycle(edges: seq<Edge>, order: seq<Visit>, tree: nat, x: nat, k: nat, i: nat, s: nat, j: nat)
    requires Explored(edges, order) && OneTree(order, tree) && tree <= i < |order| && tree <= j < |order| &&
      !Seen(order, x)
    requires k < |edges| && s < |edges| && k != s
    requires Joins(edges[k], x, order[i].vertex) && Joins(edges[s], x, order[j].vertex)
    ensures Cyclic(edges)
  {
    var y, p, r := order[i].vertex, order[j].vertex, order[tree].vertex;
    TreeConnected(edges, order, tree, i, k);
    TreeConnected(edges, order, tree, j, k);
    ConnectedStep(edges, k, s, x, p);
    ConnectedTrans(edges, k, x, p, r);
    ConnectedSym(edges, k, y, r);
    ConnectedTrans(edges, k, x, r, y);
    ConnectedSym(edges, k, x, y);
    assert Connected(edges, k, edges[k].vertex1, edges[k].vertex2);
  }

  lemma LoopCycle(edges: seq<Edge>, k: nat, x: nat)
    requires k < |edges| && Joins(edges[k], x, x)
    ensures Cyclic(edges)
  {
    ConnectedRefl(edges, k, x);
    assert Connected(edges, k, edges[k].vertex1, edges[k].vertex2);
  }

  // ---- adjacency lists -------------------------------------------------------------------------------------

  /** One entry of a vertex's adjacency list, and the edge it comes from. */
  datatype Entry = Entry(to: nat, value: int, edge: nat)

  /** The adjacency list of v after connecting the edges one by one: each edge is appended at both its ends. */
  function Entries(edges: seq<Edge>, v: nat): (r: seq<Entry>) {
    if edges == [] then []
    else
      var k := |edges| - 1;
      var e := edges[k];
      Entries(edges[..k], v) + (if e.vertex1 == v then [Entry(e.vertex2, e.value, k)] else []) +
      (if e.vertex2 == v then [Entry(e.vertex1, e.value, k)] else [])
  }

  lemma {:induction false} EntriesSound(edges: seq<Edge>, v: nat, j: nat)
    requires j < |Entries(edges, v)|
    ensures var x := Entries(edges, v)[j];
      x.edge < |edges| && Joins(edges[x.edge], v, x.to) && edges[x.edge].value == x.value
    decreases |edges|
  {
    var k := |edges| - 1;
    if j < |Entries(edges[..k], v)| {
      EntriesSound(edges[..k], v, j);
    }
  }

  lemma {:induction false} EntriesComplete(edges: seq<Edge>, v: nat, k: nat, w: nat) returns (j: nat)
    requires k < |edges| && Joins(edges[k], v, w)
    ensures j < |Entries(edges, v)| && Entries(edges, v)[j] == Entry(w, edges[k].value, k)
    decreases |edges|
  {
    var last := |edges| - 1;
    var before := Entries(edges[..last], v);
    if k < last {
      j := EntriesComplete(edges[..last], v, k, w);
    } else if edges[k].vertex1 == v && edges[k].vertex2 == w {
      j := |before|;
    } else {
      j := |Entries(edges, v)| - 1;
    }
  }

  /** Only an edge from a vertex to itself has two entries in one list. */
  lemma {:induction false} EntriesDistinct(edges: seq<Edge>, v: nat, i: nat, j: nat)
    requires i < j < |Entries(edges, v)| && Entries(edges, v)[i].edge == Entries(edges, v)[j].edge
    ensures Entries(edges, v)[i].to == v && Entries(edges, v)[j].to == v
    decreases |edges|
  {
    var k := |edges| - 1;
    var n := |Entries(edges[..k], v)|;
    if j < n {
      EntriesDistinct(edges[..k], v, i, j);
    } else if i < n {
      EntriesSound(edges[..k], v, i);
    }
  }
}
