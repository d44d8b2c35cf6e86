/** The state of assign_vertex_values between two vertices, and what visiting one more vertex does to it. */
module PerfectHashSearch {
  import opened Counting
  import opened EdgeForest
  import opened PerfectHashGraph

  // ---- the state -------------------------------------------------------------------------------------------

  ghost predicate EdgesBelow(edges: seq<Edge>, n: nat) {
    forall k :: 0 <= k < |edges| ==> edges[k].vertex1 < n && edges[k].vertex2 < n
  }

  /** No edge leaves the visited vertices. */
  ghost predicate Shut(edges: seq<Edge>, order: seq<Visit>) {
    forall k :: 0 <= k < |edges| ==> (Seen(order, edges[k].vertex1) <==> Seen(order, edges[k].vertex2))
  }

  /** The visits so far: those before tree are finished trees, the others are the current one. */
  ghost predicate Visited(edges: seq<Edge>, n: nat, order: seq<Visit>, tree: nat, visited: seq<bool>) {
    |visited| == n && EdgesBelow(edges, n) && Explored(edges, order) && OneTree(order, tree) &&
    (forall i :: 0 <= i < |order| ==> order[i].vertex < n) &&
    (forall v :: 0 <= v < n ==> visited[v] == Seen(order, v)) && Shut(edges, order[..tree])
  }

  ghost predicate SeenFrom(order: seq<Visit>, tree: nat, v: nat) {
    exists i :: tree <= i < |order| && order[i].vertex == v
  }

  /** A pending visit is a lone root, or leads from a vertex of the current tree to one not visited, along edge id. */
  ghost predicate PendingOk(edges: seq<Edge>, n: nat, order: seq<Visit>, tree: nat, visited: seq<bool>,
                            stack: seq<ToVisit>, item: ToVisit, id: int)
    requires |visited| == n
  {
    item.vertex < n && !visited[item.vertex] &&
    match item.parent
    case None => |stack| == 1 && tree == |order| && id == -1
    case Some(p) => p < n && SeenFrom(order, tree, p) && 0 <= id < |edges| && Joins(edges[id], p, item.vertex)
  }

  ghost predicate Pending(edges: seq<Edge>, n: nat, order: seq<Visit>, tree: nat, visited: seq<bool>,
                          stack: seq<ToVisit>, ids: seq<int>)
    requires |visited| == n
  {
    |ids| == |stack| && Distinct(ids) &&
    (forall j :: 0 <= j < |stack| ==> PendingOk(edges, n, order, tree, visited, stack, stack[j], ids[j]))
  }

  /** Every edge from a visited vertex to one not visited is pending. */
  ghost predicate Frontier(edges: seq<Edge>, n: nat, visited: seq<bool>, ids: seq<int>)
    requires |visited| == n && EdgesBelow(edges, n)
  {
    forall k :: 0 <= k < |edges| && visited[edges[k].vertex1] != visited[edges[k].vertex2] ==> k in ids
  }

  ghost predicate Searching(edges: seq<Edge>, n: nat, order: seq<Visit>, tree: nat, visited: seq<bool>,
                            stack: seq<ToVisit>, ids: seq<int>)
  {
    Visited(edges, n, order, tree, visited) && Pending(edges, n, order, tree, visited, stack, ids) &&
    Frontier(edges, n, visited, ids)
  }

  /** list is the adjacency list of v. */
  ghost predicate Linked(edges: seq<Edge>, v: nat, list: seq<(nat, int)>) {
    |list| == |Entries(edges, v)| &&
    forall j :: 0 <= j < |list| ==> list[j] == (Entries(edges, v)[j].to, Entries(edges, v)[j].value)
  }

  // ---- a cycle is met --------------------------------------------------------------------------------------

  lemma SkipIsParent(edges: seq<Edge>, x: nat, list: seq<(nat, int)>, p: nat, t: nat)
    requires Linked(edges, x, list) && t < |edges| && Joins(edges[t], p, x)
    ensures var s := SkipIndex(list, Some(p)); s < |list| && list[s].0 == p
  {
    var j := EntriesComplete(edges, x, t, p);
    assert list[j].0 == p;
  }

  lemma SeenPrefix(order: seq<Visit>, tree: nat, v: nat)
    requires tree <= |order|
    ensures Seen(order[..tree], v) ==> Seen(order, v)
    ensures Seen(order, v) ==> Seen(order[..tree], v) || SeenFrom(order, tree, v)
  {
    if Seen(order[..tree], v) {
      var i :| 0 <= i < tree && order[..tree][i].vertex == v;
      assert order[i].vertex == v;
    }
    if Seen(order, v) {
      var i :| 0 <= i < |order| && order[i].vertex == v;
      if i < tree {
        assert order[..tree][i].vertex == v;
      }
    }
  }

  /** A visited neighbour of a vertex not visited before is in the current tree. */
  lemma NeighborInTree(edges: seq<Edge>, n: nat, order: seq<Visit>, tree: nat, visited: seq<bool>, x: nat, y: nat,
                       k: nat)
    requires Visited(edges, n, order, tree, visited) && x < n && !visited[x] && y < n && visited[y]
    requires k < |edges| && Joins(edges[k], x, y)
    ensures SeenFrom(order, tree, y)
  {
    SeenPrefix(order, tree, x);
    SeenPrefix(order, tree, y);
  }

  /** When the scan of a vertex fails there is a cycle. */
  lemma VisitFails(edges: seq<Edge>, n: nat, order: seq<Visit>, tree: nat, visited: seq<bool>,
                   stack: seq<ToVisit>, ids: seq<int>, list: seq<(nat, int)>, bad: nat)
    requires Searching(edges, n, order, tree, visited, stack, ids) && stack != []
    requires ghost var x := stack[|stack| - 1];
      x.vertex < n && Linked(edges, x.vertex, list) && bad < |list| && bad != SkipIndex(list, x.parent) &&
      list[bad].0 < n && visited[x.vertex := true][list[bad].0]
    ensures Cyclic(edges)
  {
    var top := |stack| - 1;
    var x, parent, t := stack[top].vertex, stack[top].parent, ids[top];
    var e := Entries(edges, x)[bad];
    var y := e.to;
    EntriesSound(edges, x, bad);
    assert PendingOk(edges, n, order, tree, visited, stack, stack[top], ids[top]);
    if y == x {
      LoopCycle(edges, e.edge, x);
    } else {
      NeighborInTree(edges, n, order, tree, visited, x, y, e.edge);
      var i :| tree <= i < |order| && order[i].vertex == y;
      match parent
      case Some(p) =>
        var s := SkipIndex(list, parent);
        SkipIsParent(edges, x, list, p, t);
        EntriesSound(edges, x, s);
        if Entries(edges, x)[s].edge == e.edge {
          EntriesDistinct(edges, x, if s < bad then s else bad, if s < bad then bad else s);
        }
        var j :| tree <= j < |order| && order[j].vertex == p;
        TwoEdgesCycle(edges, order, tree, x, e.edge, i, Entries(edges, x)[s].edge, j);
    }
  }

  // ---- one more vertex -------------------------------------------------------------------------------------

  /** Vertex x comes off the stack along edge t, and its list has no visited neighbour but the skipped one. */
  ghost predicate Visiting(edges: seq<Edge>, n: nat, order: seq<Visit>, tree: nat, visited: seq<bool>,
                           stack: seq<ToVisit>, ids: seq<int>, list: seq<(nat, int)>)
  {
    Searching(edges, n, order, tree, visited, stack, ids) && stack != [] && |ids| == |stack| &&
    ghost var x := stack[|stack| - 1];
    x.vertex < n && Linked(edges, x.vertex, list) &&
    forall j :: 0 <= j < |list| ==>
      list[j].0 < n && (j != SkipIndex(list, x.parent) ==> !visited[x.vertex := true][list[j].0])
  }

  /** The only edge from x to a visited vertex is the one it was reached by. */
  lemma OneEdgeBack(edges: seq<Edge>, n: nat, order: seq<Visit>, tree: nat, visited: seq<bool>,
                    stack: seq<ToVisit>, ids: seq<int>, list: seq<(nat, int)>, k: nat, y: nat)
    requires Visiting(edges, n, order, tree, visited, stack, ids, list)
    requires k < |edges| && y < n && Joins(edges[k], stack[|stack| - 1].vertex, y)
    requires visited[y] || y == stack[|stack| - 1].vertex
    ensures k == ids[|stack| - 1] && stack[|stack| - 1].parent == Some(y) && visited[y]
  {
    var top := |stack| - 1;
    var x, parent, t := stack[top].vertex, stack[top].parent, ids[top];
    assert PendingOk(edges, n, order, tree, visited, stack, stack[top], t);
    var j := EntriesComplete(edges, x, k, y);
    var s := SkipIndex(list, parent);
    assert list[j].0 == y && j == s;
    match parent
    case Some(p) =>
      var i := EntriesComplete(edges, x, t, p);
      assert list[i].0 == p && i == s;
  }

  ghost function NewVisit(order: seq<Visit>, tree: nat, item: ToVisit, id: int): (v: Visit)
    requires item.parent.Some? ==> SeenFrom(order, tree, item.parent.value)
    ensures v.vertex == item.vertex && v.edge == id && (item.parent.None? ==> v.from == -1)
    ensures item.parent.Some? ==> tree <= v.from < |order| && order[v.from].vertex == item.parent.value
  {
    Visit(item.vertex, id,
          if item.parent.None? then -1
          else var i :| tree <= i < |order| && order[i].vertex == item.parent.value; i)
  }

  lemma VisitExplored(edges: seq<Edge>, n: nat, order: seq<Visit>, tree: nat, visited: seq<bool>,
                      stack: seq<ToVisit>, ids: seq<int>, list: seq<(nat, int)>)
    requires Visiting(edges, n, order, tree, visited, stack, ids, list)
    ensures ghost var x, id := stack[|stack| - 1], ids[|stack| - 1];
      (x.parent.Some? ==> SeenFrom(order, tree, x.parent.value)) &&
      Visited(edges, n, order + [NewVisit(order, tree, x, id)], tree, visited[x.vertex := true])
  {
    var top := |stack| - 1;
    var x, id := stack[top], ids[top];
    assert PendingOk(edges, n, order, tree, visited, stack, x, id);
    var visit := NewVisit(order, tree, x, id);
    var order' := order + [visit];
    forall j, k | 0 <= j <= |order| && 0 <= k < |edges| && Joins(edges[k], visit.vertex, order'[j].vertex)
      ensures j == visit.from && k == visit.edge
    {
      OneEdgeBack(edges, n, order, tree, visited, stack, ids, list, k, order'[j].vertex);
    }
    VisitedMore(edges, n, order, tree, visited, visit);
  }

  lemma VisitedMore(edges: seq<Edge>, n: nat, order: seq<Visit>, tree: nat, visited: seq<bool>, visit: Visit)
    requires Visited(edges, n, order, tree, visited) && visit.vertex < n && !visited[visit.vertex]
    requires ReachedBy(edges, order + [visit], |order|) && (|order| > tree ==> visit.from >= tree)
    requires forall j, k ::
      0 <= j <= |order| && 0 <= k < |edges| && Joins(edges[k], visit.vertex, (order + [visit])[j].vertex) ==>
        j == visit.from && k == visit.edge
    ensures Visited(edges, n, order + [visit], tree, visited[visit.vertex := true])
  {
    assert (order + [visit])[..tree] == order[..tree];
    ExploredMore(edges, order, visit);
    SeenMore(order, visit, n, visited);
    hide Explored, Seen, Shut, ReachedBy;
  }

  lemma SeenMore(order: seq<Visit>, visit: Visit, n: nat, visited: seq<bool>)
    requires |visited| == n && (forall v :: 0 <= v < n ==> visited[v] == Seen(order, v)) && visit.vertex < n
    ensures forall v :: 0 <= v < n ==> visited[visit.vertex := true][v] == Seen(order + [visit], v)
  {
    var order' := order + [visit];
    forall v | 0 <= v < n ensures visited[visit.vertex := true][v] == Seen(order', v) {
      if Seen(order', v) {
        var i :| 0 <= i < |order'| && order'[i].vertex == v;
        assert i < |order| ==> Seen(order, v);
      }
      if visited[v] {
        var i :| 0 <= i < |order| && order[i].vertex == v;
        assert order'[i].vertex == v;
      }
      if v == visit.vertex {
        assert order'[|order|].vertex == v;
      }
    }
  }

  /** The edges of the visits pushed for a list. */
  function PushedIds(entries: seq<Entry>, s: nat): (r: seq<int>) {
    seq(if s < |entries| then |entries| - 1 else |entries|,
        j requires 0 <= j < (if s < |entries| then |entries| - 1 else |entries|) =>
          entries[if j < s then j else j + 1].edge)
  }

  lemma PushedIdAt(entries: seq<Entry>, s: nat, i: nat)
    requires i < |entries| && i != s
    ensures entries[i].edge in PushedIds(entries, s)
  {
    assert PushedIds(entries, s)[if i < s then i else i - 1] == entries[i].edge;
  }

  lemma SeenFromMore(order: seq<Visit>, visit: Visit, tree: nat, v: nat)
    requires SeenFrom(order, tree, v) || (visit.vertex == v && tree <= |order|)
    ensures SeenFrom(order + [visit], tree, v)
  {
    var order' := order + [visit];
    if SeenFrom(order, tree, v) {
      var i :| tree <= i < |order| && order[i].vertex == v;
      assert order'[i].vertex == v;
    } else {
      assert order'[|order|].vertex == v;
    }
  }

  lemma SeenFromSeen(order: seq<Visit>, tree: nat, v: nat)
    requires SeenFrom(order, tree, v)
    ensures Seen(order, v)
  {
    var i :| tree <= i < |order| && order[i].vertex == v;
  }

  /** A visit below the top of the stack leads from a visited vertex to one that is still not visited. */
  lemma RestEntry(edges: seq<Edge>, n: nat, order: seq<Visit>, tree: nat, visited: seq<bool>,
                  stack: seq<ToVisit>, ids: seq<int>, list: seq<(nat, int)>, j: nat)
    requires Visiting(edges, n, order, tree, visited, stack, ids, list) && j < |stack| - 1
    ensures |visited| == n && |ids| == |stack| && stack[j].parent.Some? && 0 <= ids[j] < |edges|
    ensures ghost var v, p := stack[j].vertex, stack[j].parent.value;
      v < n && p < n && visited[p] && !visited[v] && v != stack[|stack| - 1].vertex && Joins(edges[ids[j]], p, v) &&
      SeenFrom(order, tree, p)
  {
    assert PendingOk(edges, n, order, tree, visited, stack, stack[j], ids[j]);
    SeenFromSeen(order, tree, stack[j].parent.value);
    if stack[j].vertex == stack[|stack| - 1].vertex {
      OneEdgeBack(edges, n, order, tree, visited, stack, ids, list, ids[j], stack[j].parent.value);
    }
  }

  /** What stays on the stack stays pending. */
  lemma RestPending(edges: seq<Edge>, n: nat, order: seq<Visit>, tree: nat, visited: seq<bool>,
                    stack: seq<ToVisit>, ids: seq<int>, list: seq<(nat, int)>, visit: Visit, stack': seq<ToVisit>,
                    j: nat)
    requires Visiting(edges, n, order, tree, visited, stack, ids, list) && j < |stack| - 1
    requires visit.vertex == stack[|stack| - 1].vertex
    ensures PendingOk(edges, n, order + [visit], tree, visited[visit.vertex := true], stack', stack[j], ids[j])
  {
    hide Visiting, SeenFrom;
    VisitingShape(edges, n, order, tree, visited, stack, ids, list);
    RestEntry(edges, n, order, tree, visited, stack, ids, list, j);
    SeenFromMore(order, visit, tree, stack[j].parent.value);
  }

  /** Where the j-th pushed visit comes from. */
  lemma PushedOrigin(edges: seq<Edge>, n: nat, order: seq<Visit>, tree: nat, visited: seq<bool>,
                     stack: seq<ToVisit>, ids: seq<int>, list: seq<(nat, int)>, s: nat, j: nat)
    returns (i: nat)
    requires Visiting(edges, n, order, tree, visited, stack, ids, list)
    requires s == SkipIndex(list, stack[|stack| - 1].parent) && j < |Pushed(list, s, stack[|stack| - 1].vertex)|
    ensures i == (if j < s then j else j + 1) && i < |list| == |Entries(edges, stack[|stack| - 1].vertex)|
    ensures ghost var x, e := stack[|stack| - 1].vertex, Entries(edges, stack[|stack| - 1].vertex)[i];
      e.to < n && e.to != x && !visited[e.to] && e.edge < |edges| && Joins(edges[e.edge], x, e.to) &&
      Pushed(list, s, x)[j] == ToVisit(Some(x), e.to) && j < |PushedIds(Entries(edges, x), s)| &&
      PushedIds(Entries(edges, x), s)[j] == e.edge
  {
    i := if j < s then j else j + 1;
    EntriesSound(edges, stack[|stack| - 1].vertex, i);
  }

  lemma NewPending(edges: seq<Edge>, n: nat, order: seq<Visit>, tree: nat, visited: seq<bool>,
                   stack: seq<ToVisit>, ids: seq<int>, list: seq<(nat, int)>, visit: Visit, stack': seq<ToVisit>,
                   s: nat, j: nat)
    requires Visiting(edges, n, order, tree, visited, stack, ids, list)
    requires visit.vertex == stack[|stack| - 1].vertex && tree <= |order|
    requires s == SkipIndex(list, stack[|stack| - 1].parent) && j < |Pushed(list, s, visit.vertex)|
    ensures j < |PushedIds(Entries(edges, visit.vertex), s)|
    ensures PendingOk(edges, n, order + [visit], tree, visited[visit.vertex := true], stack',
                      Pushed(list, s, visit.vertex)[j], PushedIds(Entries(edges, visit.vertex), s)[j])
  {
    hide Visiting, Pushed, PushedIds, Entries, SkipIndex, SeenFrom;
    VisitingShape(edges, n, order, tree, visited, stack, ids, list);
    var i := PushedOrigin(edges, n, order, tree, visited, stack, ids, list, s, j);
    SeenFromMore(order, visit, tree, visit.vertex);
  }

  lemma PushedIdsDistinct(edges: seq<Edge>, n: nat, order: seq<Visit>, tree: nat, visited: seq<bool>,
                          stack: seq<ToVisit>, ids: seq<int>, list: seq<(nat, int)>, s: nat, i: nat, j: nat)
    requires Visiting(edges, n, order, tree, visited, stack, ids, list)
    requires s == SkipIndex(list, stack[|stack| - 1].parent)
    requires i < j < |Pushed(list, s,
                             stack[|stack| - 1].vertex)| == |PushedIds(Entries(edges, stack[|stack| - 1].vertex), s)|
    ensures ghost var added := PushedIds(Entries(edges, stack[|stack| - 1].vertex), s); added[i] != added[j]
  {
    hide Visiting, Pushed, PushedIds, Entries, SkipIndex, Joins;
    VisitingShape(edges, n, order, tree, visited, stack, ids, list);
    var i' := PushedOrigin(edges, n, order, tree, visited, stack, ids, list, s, i);
    var j' := PushedOrigin(edges, n, order, tree, visited, stack, ids, list, s, j);
    var x := stack[|stack| - 1].vertex;
    if Entries(edges, x)[i'].edge == Entries(edges, x)[j'].edge {
      EntriesDistinct(edges, x, i', j');
    }
  }

  lemma PushedIdNew(edges: seq<Edge>, n: nat, order: seq<Visit>, tree: nat, visited: seq<bool>,
                    stack: seq<ToVisit>, ids: seq<int>, list: seq<(nat, int)>, s: nat, i: nat, j: nat)
    requires Visiting(edges, n, order, tree, visited, stack, ids, list) && i < |stack| - 1 && |ids| == |stack|
    requires s == SkipIndex(list, stack[|stack| - 1].parent)
    requires j < |Pushed(list, s, stack[|stack| - 1].vertex)| == |PushedIds(Entries(edges, stack[|stack| - 1].vertex),
        s)|
    ensures ids[i] != PushedIds(Entries(edges, stack[|stack| - 1].vertex), s)[j]
  {
    hide Pushed, PushedIds, Entries, SkipIndex, SeenFrom, Visiting;
    VisitingShape(edges, n, order, tree, visited, stack, ids, list);
    var j' := PushedOrigin(edges, n, order, tree, visited, stack, ids, list, s, j);
    RestEntry(edges, n, order, tree, visited, stack, ids, list, i);
  }

  lemma PushedLengths(edges: seq<Edge>, n: nat, order: seq<Visit>, tree: nat, visited: seq<bool>,
                      stack: seq<ToVisit>, ids: seq<int>, list: seq<(nat, int)>, s: nat)
    requires Visiting(edges, n, order, tree, visited, stack, ids, list)
    ensures ghost var x := stack[|stack| - 1].vertex; |Pushed(list, s, x)| == |PushedIds(Entries(edges, x), s)|
    ensures Distinct(ids)
  {
  }

  lemma NewIdsDistinct(edges: seq<Edge>, n: nat, order: seq<Visit>, tree: nat, visited: seq<bool>,
                       stack: seq<ToVisit>, ids: seq<int>, list: seq<(nat, int)>)
    requires Visiting(edges, n, order, tree, visited, stack, ids, list)
    ensures ghost var x := stack[|stack| - 1];
      Distinct(ids[..|stack| - 1] + PushedIds(Entries(edges, x.vertex), SkipIndex(list, x.parent)))
  {
    hide PushedIds, Pushed, SkipIndex, Entries, Visiting;
    VisitingShape(edges, n, order, tree, visited, stack, ids, list);
    var top := |stack| - 1;
    var x := stack[top];
    var s := SkipIndex(list, x.parent);
    var added := PushedIds(Entries(edges, x.vertex), s);
    PushedLengths(edges, n, order, tree, visited, stack, ids, list, s);
    forall i, j | 0 <= i < j < |added| ensures added[i] != added[j] {
      PushedIdsDistinct(edges, n, order, tree, visited, stack, ids, list, s, i, j);
    }
    forall i, j | 0 <= i < top && 0 <= j < |added| ensures ids[i] != added[j] {
      PushedIdNew(edges, n, order, tree, visited, stack, ids, list, s, i, j);
    }
  }

  lemma VisitFrontier(edges: seq<Edge>, n: nat, order: seq<Visit>, tree: nat, visited: seq<bool>,
                      stack: seq<ToVisit>, ids: seq<int>, list: seq<(nat, int)>)
    requires Visiting(edges, n, order, tree, visited, stack, ids, list)
    ensures ghost var x := stack[|stack| - 1];
      Frontier(edges, n, visited[x.vertex := true],
               ids[..|stack| - 1] + PushedIds(Entries(edges, x.vertex), SkipIndex(list, x.parent)))
  {
    var top := |stack| - 1;
    var x := stack[top];
    var s, entries := SkipIndex(list, x.parent), Entries(edges, x.vertex);
    var added, rest, visited' := PushedIds(entries, s), ids[..top], visited[x.vertex := true];
    assert PendingOk(edges, n, order, tree, visited, stack, x, ids[top]);
    if x.parent.Some? {
      SeenFromSeen(order, tree, x.parent.value);
    }
    forall k | 0 <= k < |edges| && visited'[edges[k].vertex1] != visited'[edges[k].vertex2] ensures k in rest + added {
      var e := edges[k];
      if e.vertex1 == x.vertex || e.vertex2 == x.vertex {
        var w := if e.vertex1 == x.vertex then e.vertex2 else e.vertex1;
        var j := EntriesComplete(edges, x.vertex, k, w);
        assert list[j].0 == w;
        PushedIdAt(entries, s, j);
      } else {
        assert k in ids;
        var i :| 0 <= i < |ids| && ids[i] == k;
        assert rest[i] == k;
      }
    }
  }

  /** Visiting one more vertex keeps the state. */
  lemma VisitWorks(edges: seq<Edge>, n: nat, order: seq<Visit>, tree: nat, visited: seq<bool>,
                   stack: seq<ToVisit>, ids: seq<int>, list: seq<(nat, int)>)
    requires Visiting(edges, n, order, tree, visited, stack, ids, list)
    ensures ghost var x, id := stack[|stack| - 1], ids[|stack| - 1];
      (x.parent.Some? ==> SeenFrom(order, tree, x.parent.value)) &&
      Searching(edges, n, order + [NewVisit(order, tree, x, id)], tree, visited[x.vertex := true],
                stack[..|stack| - 1] + Pushed(list, SkipIndex(list, x.parent), x.vertex),
                ids[..|stack| - 1] + PushedIds(Entries(edges, x.vertex), SkipIndex(list, x.parent)))
  {
    hide Visiting, Visited, Frontier, PendingOk, Entries, SkipIndex, Distinct, NewVisit, SeenFrom, Pushed, PushedIds;
    VisitingShape(edges, n, order, tree, visited, stack, ids, list);
    var top := |stack| - 1;
    var x, id := stack[top], ids[top];
    var s, entries := SkipIndex(list, x.parent), Entries(edges, x.vertex);
    PushedLengths(edges, n, order, tree, visited, stack, ids, list, s);
    VisitExplored(edges, n, order, tree, visited, stack, ids, list);
    NewIdsDistinct(edges, n, order, tree, visited, stack, ids, list);
    VisitFrontier(edges, n, order, tree, visited, stack, ids, list);
    var visit := NewVisit(order, tree, x, id);
    var stack', ids' := stack[..top] + Pushed(list, s, x.vertex), ids[..top] + PushedIds(entries, s);
    forall j | 0 <= j < |stack'|
      ensures PendingOk(edges, n, order + [visit], tree, visited[x.vertex := true], stack', stack'[j], ids'[j])
    {
      if j < top {
        RestPending(edges, n, order, tree, visited, stack, ids, list, visit, stack', j);
      } else {
        NewPending(edges, n, order, tree, visited, stack, ids, list, visit, stack', s, j - top);
      }
    }
  }

  lemma VisitingShape(edges: seq<Edge>, n: nat, order: seq<Visit>, tree: nat, visited: seq<bool>,
                      stack: seq<ToVisit>, ids: seq<int>, list: seq<(nat, int)>)
    requires Visiting(edges, n, order, tree, visited, stack, ids, list)
    ensures stack != [] && |ids| == |stack| && tree <= |order| && |visited| == n && stack[|stack| - 1].vertex < n
    ensures |list| == |Entries(edges, stack[|stack| - 1].vertex)| && !visited[stack[|stack| - 1].vertex]
  {
    assert PendingOk(edges, n, order, tree, visited, stack, stack[|stack| - 1], ids[|stack| - 1]);
  }
}
