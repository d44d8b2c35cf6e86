/** The values assign_vertex_values gives: every edge between visited vertices adds up, and so does the edge of every
    pending visit that is the last one pushed for its vertex. */
module PerfectHashValues {
  import opened EdgeForest
  import opened PerfectHashGraph
  import opened PerfectHashSearch

  /** The values at the two ends of the edge add up to its value, modulo n. */
  predicate AddsUp(e: Edge, values: seq<int>, n: nat)
    requires n > 0 && e.vertex1 < |values| && e.vertex2 < |values|
  {
    (values[e.vertex1] + values[e.vertex2]) % n == e.value % n
  }

  ghost predicate OnTop(stack: seq<ToVisit>, j: nat)
    requires j < |stack|
  {
    forall i :: j < i < |stack| ==> stack[i].vertex != stack[j].vertex
  }

  ghost predicate Valued(edges: seq<Edge>, n: nat, visited: seq<bool>, stack: seq<ToVisit>, ids: seq<int>,
                         values: seq<int>)
  {
    |values| == |visited| == n && EdgesBelow(edges, n) && |ids| == |stack| && (edges != [] ==> n > 0) &&
    (forall v :: 0 <= v < n ==> -1 <= values[v] < n && (visited[v] ==> values[v] >= 0)) &&
    (forall j :: 0 <= j < |stack| ==> stack[j].vertex < n && values[stack[j].vertex] >= 0) &&
    (forall k :: 0 <= k < |edges| && visited[edges[k].vertex1] && visited[edges[k].vertex2] ==>
     AddsUp(edges[k], values, n)) &&
    (forall j :: 0 <= j < |stack| && OnTop(stack, j) && 0 <= ids[j] < |edges| ==> AddsUp(edges[ids[j]], values, n))
  }

  // ---- the values after one list ---------------------------------------------------------------------------

  lemma {:induction false} LastEntry(list: seq<(nat, int)>, s: nat, i: nat) returns (j: nat)
    requires i < |list| && i != s
    ensures i <= j < |list| && j != s && list[j].0 == list[i].0 && LastTo(list, s, j)
    decreases |list| - i
  {
    if k :| i < k < |list| && k != s && list[k].0 == list[i].0 {
      j := LastEntry(list, s, k);
    } else {
      j := i;
    }
  }

  lemma VisitedKeep(edges: seq<Edge>, n: nat, order: seq<Visit>, tree: nat, visited: seq<bool>,
                    stack: seq<ToVisit>, ids: seq<int>, list: seq<(nat, int)>, s: nat, values: seq<int>,
                    values': seq<int>, v: nat)
    requires Visiting(edges, n, order, tree, visited, stack, ids, list)
    requires s == SkipIndex(list, stack[|stack| - 1].parent) && |values| == n
    requires ValuesFrom(list, s, values[stack[|stack| - 1].vertex], n, values, values')
    requires v < n && (visited[v] || v == stack[|stack| - 1].vertex)
    ensures |values'| == n && values'[v] == values[v]
  {
  }

  lemma RangeKept(list: seq<(nat, int)>, s: nat, x: int, n: nat, values: seq<int>, values': seq<int>, v: nat)
    requires ValuesFrom(list, s, x, n, values, values') && v < n && -1 <= values[v] < n
    ensures -1 <= values'[v] < n && (values[v] >= 0 ==> values'[v] >= 0)
    ensures forall i :: 0 <= i < |list| && i != s && list[i].0 == v ==> values'[v] >= 0
  {
    if i :| 0 <= i < |list| && i != s && list[i].0 == v {
      var j := LastEntry(list, s, i);
      assert values'[list[j].0] == (list[j].1 - x) % n;
    }
  }

  lemma PushedIndex(list: seq<(nat, int)>, s: nat, x: nat, i: nat) returns (j: nat)
    requires i < |list| && i != s
    ensures j == (if i < s then i else i - 1) && j < |Pushed(list, s, x)| && Pushed(list, s, x)[j].vertex == list[i].0
  {
    j := if i < s then i else i - 1;
  }

  lemma AddedUp(e: Edge, values: seq<int>, n: nat, a: nat, b: nat)
    requires n > 0 && Joins(e, a, b) && a < |values| && b < |values| && values[b] == (e.value - values[a]) % n
    ensures AddsUp(e, values, n)
  {
    ModDifference(values[a], e.value, n);
  }

  lemma StillAddsUp(e: Edge, values: seq<int>, values': seq<int>, n: nat, a: nat, b: nat)
    requires n > 0 && Joins(e, a, b) && a < |values| == |values'| && b < |values|
    requires values'[a] == values[a] && values'[b] == values[b] && AddsUp(e, values, n)
    ensures AddsUp(e, values', n)
  {
  }

  lemma ValuedAt(edges: seq<Edge>, n: nat, visited: seq<bool>, stack: seq<ToVisit>, ids: seq<int>, values: seq<int>,
                 k: nat)
    requires Valued(edges, n, visited, stack, ids, values) && k < |edges|
    ensures n > 0 && |values| == |visited| == n && |ids| == |stack| && edges[k].vertex1 < n && edges[k].vertex2 < n
    ensures visited[edges[k].vertex1] && visited[edges[k].vertex2] ==> AddsUp(edges[k], values, n)
    ensures forall j :: 0 <= j < |stack| && OnTop(stack, j) && ids[j] == k ==> AddsUp(edges[k], values, n)
  {
    hide AddsUp, OnTop;
  }

  /** A pending visit that no later one overtakes keeps its value. */
  lemma RestAddsUp(edges: seq<Edge>, n: nat, order: seq<Visit>, tree: nat, visited: seq<bool>,
                   stack: seq<ToVisit>, ids: seq<int>, list: seq<(nat, int)>, s: nat, values: seq<int>,
                   values': seq<int>, stack': seq<ToVisit>, j: nat)
    requires Visiting(edges, n, order, tree, visited, stack, ids, list) && Valued(edges, n, visited, stack, ids, values)
    requires s == SkipIndex(list, stack[|stack| - 1].parent)
    requires ValuesFrom(list, s, values[stack[|stack| - 1].vertex], n, values, values')
    requires stack' == stack[..|stack| - 1] + Pushed(list, s, stack[|stack| - 1].vertex)
    requires j < |stack| - 1 && |ids| == |stack| && OnTop(stack', j) && 0 <= ids[j] < |edges|
    ensures |values'| == n && AddsUp(edges[ids[j]], values', n)
  {
    hide Visiting, Valued, AddsUp, Pushed, SkipIndex;
    var top := |stack| - 1;
    var x, k := stack[top].vertex, ids[j];
    RestEntry(edges, n, order, tree, visited, stack, ids, list, j);
    ValuedAt(edges, n, visited, stack, ids, values, k);
    var v, p := stack[j].vertex, stack[j].parent.value;
    forall i | j < i < |stack| ensures stack[i].vertex != stack[j].vertex {
      assert i < top ==> stack'[i] == stack[i];
    }
    assert OnTop(stack, j);
    forall i | 0 <= i < |list| && i != s ensures list[i].0 != v {
      var i' := PushedIndex(list, s, x, i);
      assert stack'[top + i'].vertex == list[i].0;
    }
    assert values'[v] == values[v];
    VisitedKeep(edges, n, order, tree, visited, stack, ids, list, s, values, values', p);
    StillAddsUp(edges[k], values, values', n, p, v);
  }

  lemma OnTopIsLast(list: seq<(nat, int)>, s: nat, x: nat, rest: seq<ToVisit>, j: nat, i: nat)
    requires j < |Pushed(list, s, x)| && OnTop(rest + Pushed(list, s, x), |rest| + j)
    requires i == if j < s then j else j + 1
    ensures i < |list| && LastTo(list, s, i)
  {
    var stack := rest + Pushed(list, s, x);
    forall k | i < k < |list| && k != s ensures list[k].0 != list[i].0 {
      var k' := PushedIndex(list, s, x, k);
      assert stack[|rest| + k'].vertex == list[k].0 && stack[|rest| + j].vertex == list[i].0;
    }
  }

  /** A visit just pushed adds up if it is the last one for its vertex. */
  lemma NewAddsUp(edges: seq<Edge>, n: nat, order: seq<Visit>, tree: nat, visited: seq<bool>,
                  stack: seq<ToVisit>, ids: seq<int>, list: seq<(nat, int)>, s: nat, values: seq<int>,
                  values': seq<int>, stack': seq<ToVisit>, j: nat)
    requires Visiting(edges, n, order, tree, visited, stack, ids, list) && |values| == n
    requires s == SkipIndex(list, stack[|stack| - 1].parent) && EdgesBelow(edges, n)
    requires ValuesFrom(list, s, values[stack[|stack| - 1].vertex], n, values, values')
    requires stack' == stack[..|stack| - 1] + Pushed(list, s, stack[|stack| - 1].vertex)
    requires j < |Pushed(list, s, stack[|stack| - 1].vertex)| && OnTop(stack', |stack| - 1 + j)
    ensures ghost var id := PushedIds(Entries(edges, stack[|stack| - 1].vertex), s);
      j < |id| && 0 <= id[j] < |edges| && |values'| == n && AddsUp(edges[id[j]], values', n)
  {
    hide Visiting, AddsUp, Pushed, PushedIds, SkipIndex, Entries, OnTop, EdgesBelow;
    VisitingShape(edges, n, order, tree, visited, stack, ids, list);
    var top := |stack| - 1;
    var x := stack[top].vertex;
    VisitedKeep(edges, n, order, tree, visited, stack, ids, list, s, values, values', x);
    var i := PushedOrigin(edges, n, order, tree, visited, stack, ids, list, s, j);
    ListEntry(edges, n, order, tree, visited, stack, ids, list, i);
    var e := edges[Entries(edges, x)[i].edge];
    OnTopIsLast(list, s, x, stack[..top], j, i);
    AddedUp(e, values', n, x, list[i].0);
  }

  lemma ListEntry(edges: seq<Edge>, n: nat, order: seq<Visit>, tree: nat, visited: seq<bool>,
                  stack: seq<ToVisit>, ids: seq<int>, list: seq<(nat, int)>, i: nat)
    requires Visiting(edges, n, order, tree, visited, stack, ids, list) && i < |list|
    ensures ghost var x := stack[|stack| - 1].vertex;
      x < n && |list| == |Entries(edges, x)| && Entries(edges, x)[i].edge < |edges| && n > 0 &&
      list[i] == (Entries(edges, x)[i].to, edges[Entries(edges, x)[i].edge].value)
    ensures edges[Entries(edges, stack[|stack| - 1].vertex)[i].edge].vertex1 < n
    ensures edges[Entries(edges, stack[|stack| - 1].vertex)[i].edge].vertex2 < n
  {
    EntriesSound(edges, stack[|stack| - 1].vertex, i);
  }

  lemma TopValued(edges: seq<Edge>, n: nat, visited: seq<bool>, stack: seq<ToVisit>, ids: seq<int>, values: seq<int>,
                  k: nat)
    requires Valued(edges, n, visited, stack, ids, values) && stack != [] && k < |edges| && |ids| == |stack|
    requires k == ids[|stack| - 1]
    ensures n > 0 && |values| == n && edges[k].vertex1 < n && edges[k].vertex2 < n && AddsUp(edges[k], values, n)
  {
    hide AddsUp;
    assert OnTop(stack, |stack| - 1);
  }

  lemma EdgeAddsUp(edges: seq<Edge>, n: nat, order: seq<Visit>, tree: nat, visited: seq<bool>,
                   stack: seq<ToVisit>, ids: seq<int>, list: seq<(nat, int)>, s: nat, values: seq<int>,
                   values': seq<int>, k: nat)
    requires Visiting(edges, n, order, tree, visited, stack, ids, list) && Valued(edges, n, visited, stack, ids, values)
    requires s == SkipIndex(list, stack[|stack| - 1].parent)
    requires ValuesFrom(list, s, values[stack[|stack| - 1].vertex], n, values, values')
    requires k < |edges| && edges[k].vertex1 < n && edges[k].vertex2 < n
    requires ghost var visited' := visited[stack[|stack| - 1].vertex := true];
      visited'[edges[k].vertex1] && visited'[edges[k].vertex2]
    ensures |values'| == n && AddsUp(edges[k], values', n)
  {
    hide Visiting, Valued, ValuesFrom, AddsUp, SkipIndex;
    VisitingShape(edges, n, order, tree, visited, stack, ids, list);
    ValuedAt(edges, n, visited, stack, ids, values, k);
    var x, e := stack[|stack| - 1].vertex, edges[k];
    VisitedKeep(edges, n, order, tree, visited, stack, ids, list, s, values, values', e.vertex1);
    VisitedKeep(edges, n, order, tree, visited, stack, ids, list, s, values, values', e.vertex2);
    if e.vertex1 == x || e.vertex2 == x {
      OneEdgeBack(edges, n, order, tree, visited, stack, ids, list, k, if e.vertex1 == x then e.vertex2 else e.vertex1);
      TopValued(edges, n, visited, stack, ids, values, k);
    }
    StillAddsUp(e, values, values', n, e.vertex1, e.vertex2);
  }

  /** Visiting one more vertex keeps all of this. */
  lemma ValuesWork(edges: seq<Edge>, n: nat, order: seq<Visit>, tree: nat, visited: seq<bool>,
                   stack: seq<ToVisit>, ids: seq<int>, list: seq<(nat, int)>, s: nat, values: seq<int>,
                   values': seq<int>)
    requires Visiting(edges, n, order, tree, visited, stack, ids, list) && Valued(edges, n, visited, stack, ids, values)
    requires s == SkipIndex(list, stack[|stack| - 1].parent)
    requires ValuesFrom(list, s, values[stack[|stack| - 1].vertex], n, values, values')
    ensures ghost var x := stack[|stack| - 1].vertex;
      Valued(edges, n, visited[x := true], stack[..|stack| - 1] + Pushed(list, s, x),
             ids[..|stack| - 1] + PushedIds(Entries(edges, x), s), values')
  {
    hide Visiting, ValuesFrom, AddsUp, OnTop, Pushed, PushedIds, Entries, SkipIndex;
    VisitingShape(edges, n, order, tree, visited, stack, ids, list);
    PushedLengths(edges, n, order, tree, visited, stack, ids, list, s);
    var top := |stack| - 1;
    var x := stack[top].vertex;
    var visited', stack' := visited[x := true], stack[..top] + Pushed(list, s, x);
    var ids' := ids[..top] + PushedIds(Entries(edges, x), s);
    VisitedKeep(edges, n, order, tree, visited, stack, ids, list, s, values, values', x);
    forall v | 0 <= v < n ensures -1 <= values'[v] < n && (values[v] >= 0 ==> values'[v] >= 0) {
      RangeKept(list, s, values[x], n, values, values', v);
    }
    forall j | 0 <= j < |stack'| ensures stack'[j].vertex < n && values'[stack'[j].vertex] >= 0 {
      if j >= top {
        var i := PushedOrigin(edges, n, order, tree, visited, stack, ids, list, s, j - top);
        PushedValue(edges, n, order, tree, visited, stack, ids, list, s, values, values', i);
      }
    }
    forall k | 0 <= k < |edges| && visited'[edges[k].vertex1] && visited'[edges[k].vertex2]
      ensures AddsUp(edges[k], values', n)
    {
      EdgeAddsUp(edges, n, order, tree, visited, stack, ids, list, s, values, values', k);
    }
    forall j | 0 <= j < |stack'| && OnTop(stack', j) && 0 <= ids'[j] < |edges|
      ensures AddsUp(edges[ids'[j]], values', n)
    {
      if j < top {
        RestAddsUp(edges, n, order, tree, visited, stack, ids, list, s, values, values', stack', j);
      } else {
        NewAddsUp(edges, n, order, tree, visited, stack, ids, list, s, values, values', stack', j - top);
      }
    }
  }

  lemma PushedValue(edges: seq<Edge>, n: nat, order: seq<Visit>, tree: nat, visited: seq<bool>,
                    stack: seq<ToVisit>, ids: seq<int>, list: seq<(nat, int)>, s: nat, values: seq<int>,
                    values': seq<int>, i: nat)
    requires Visiting(edges, n, order, tree, visited, stack, ids, list) && Valued(edges, n, visited, stack, ids, values)
    requires ValuesFrom(list, s, values[stack[|stack| - 1].vertex], n, values, values')
    requires i < |list| && i != s && |list| == |Entries(edges, stack[|stack| - 1].vertex)|
    ensures ghost var to := Entries(edges, stack[|stack| - 1].vertex)[i].to;
      to < n && |values'| == n && values'[to] >= 0
  {
    var to := list[i].0;
    RangeKept(list, s, values[stack[|stack| - 1].vertex], n, values, values', to);
  }
}
