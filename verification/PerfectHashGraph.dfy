/** perfect_hash's Graph: one depth-first search finds out whether the graph is a forest and gives every vertex a
    value, so that the two ends of each edge add up to the edge's value. */
module PerfectHashGraph {
  import opened Arithmetic

  datatype Option<T> = None | Some(value: T)

  datatype ToVisit = ToVisit(parent: Option<nat>, vertex: nat)

  // ---- arithmetic ------------------------------------------------------------------------------------------

  lemma ModDifference(a: int, e: int, n: nat)
    requires n > 0
    ensures (a + (e - a) % n) % n == e % n
  {
    var q, p := (e - a) / n, e / n;
    assert a + (e - a) % n == (p - q) * n + e % n;
    RemainderUnique(a + (e - a) % n, n, p - q, e % n);
  }

  // ---- one vertex's list -----------------------------------------------------------------------------------

  /** The first entry that leads to the vertex the search came from, or the length of the list. */
  function SkipIndex(list: seq<(nat, int)>, parent: Option<nat>): (s: nat)
    ensures s <= |list| && (s < |list| ==> parent == Some(list[s].0))
    ensures forall j :: 0 <= j < s ==> parent != Some(list[j].0)
  {
    if list == [] then 0
    else if parent == Some(list[0].0) then 0
    else
      var rest := SkipIndex(list[1..], parent);
      assert forall j :: 0 < j < |list| ==> list[1..][j - 1] == list[j];
      rest + 1
  }

  /** The visits pushed for a list: one for every entry but the skipped one. */
  function Pushed(list: seq<(nat, int)>, s: nat, vertex: nat): (r: seq<ToVisit>) {
    seq(if s < |list| then |list| - 1 else |list|, j requires 0 <= j < (if s < |list| then |list| - 1 else |list|) =>
      ToVisit(Some(vertex), list[if j < s then j else j + 1].0))
  }

  lemma PushedStep(list: seq<(nat, int)>, s: nat, vertex: nat, i: nat)
    requires i < |list|
    ensures Pushed(list[..i + 1], s, vertex) ==
            Pushed(list[..i], s, vertex) + if i == s then [] else [ToVisit(Some(vertex), list[i].0)]
  {
  }

  /** No later entry but the skipped one leads to the same vertex. */
  ghost predicate LastTo(list: seq<(nat, int)>, s: nat, j: nat)
    requires j < |list|
  {
    forall i :: j < i < |list| && i != s ==> list[i].0 != list[j].0
  }

  /** Values after a list: each neighbour has the value its last entry asks for, all others keep theirs. */
  ghost predicate ValuesFrom(list: seq<(nat, int)>, s: nat, x: int, n: nat, values: seq<int>, values': seq<int>) {
    n > 0 && |values'| == |values| == n && (forall j :: 0 <= j < |list| && j != s ==> list[j].0 < n) &&
    (forall v :: 0 <= v < n && (forall j :: 0 <= j < |list| && j != s ==> list[j].0 != v) ==>
     values'[v] == values[v]) &&
    (forall j :: 0 <= j < |list| && j != s && LastTo(list, s, j) ==> values'[list[j].0] == (list[j].1 - x) % n)
  }

  lemma LastBefore(list: seq<(nat, int)>, s: nat, i: nat, j: nat)
    requires j < i < |list| && LastTo(list[..i + 1], s, j)
    ensures LastTo(list[..i], s, j) && (i != s ==> list[i].0 != list[j].0)
  {
    var before, after := list[..i], list[..i + 1];
    forall k | j < k < i && k != s ensures before[k].0 != before[j].0 {
      assert after[k] == before[k];
    }
    assert i != s ==> after[i].0 != after[j].0;
  }

  lemma ValuesSkip(list: seq<(nat, int)>, s: nat, x: int, n: nat, values: seq<int>, values': seq<int>)
    requires s < |list| && ValuesFrom(list[..s], s, x, n, values, values')
    ensures ValuesFrom(list[..s + 1], s, x, n, values, values')
  {
    hide LastTo;
    var before, after := list[..s], list[..s + 1];
    forall v | 0 <= v < n && (forall j :: 0 <= j < |after| && j != s ==> after[j].0 != v)
      ensures values'[v] == values[v]
    {
      assert forall j :: 0 <= j < |before| ==> after[j].0 == before[j].0 != v;
    }
    forall j | 0 <= j < |after| && j != s && LastTo(after, s, j) ensures values'[after[j].0] == (after[j].1 - x) % n {
      LastBefore(list, s, s, j);
      assert before[j] == after[j];
    }
  }

  lemma ValuesStep(list: seq<(nat, int)>, s: nat, x: int, n: nat, values: seq<int>, values': seq<int>, i: nat)
    requires i < |list| && i != s && list[i].0 < n && ValuesFrom(list[..i], s, x, n, values, values')
    ensures ValuesFrom(list[..i + 1], s, x, n, values, values'[list[i].0 := (list[i].1 - x) % n])
  {
    var before, after := list[..i], list[..i + 1];
    var values'' := values'[list[i].0 := (list[i].1 - x) % n];
    forall v | 0 <= v < n && (forall j :: 0 <= j < |after| && j != s ==> after[j].0 != v)
      ensures values''[v] == values[v]
    {
      assert forall j :: 0 <= j < |before| && j != s ==> after[j].0 == before[j].0 != v;
      assert after[i].0 == list[i].0;
    }
    forall j | 0 <= j < |after| && j != s && LastTo(after, s, j) ensures values''[after[j].0] == (after[j].1 - x) % n {
      if j < i {
        LastBefore(list, s, i, j);
        assert before[j] == after[j];
      }
    }
  }

  lemma ScanStart(list: seq<(nat, int)>, s: nat, vertex: nat, n: nat, values: seq<int>)
    requires vertex < n == |values|
    ensures Pushed(list[..0], s, vertex) == [] && ValuesFrom(list[..0], s, values[vertex], n, values, values)
  {
  }

  /** The inner loop of assign_vertex_values: looks at the neighbours of a vertex just marked visited. It fails
      exactly when one other than the skipped one has been visited. */
  method ScanNeighbors(list: seq<(nat, int)>, parent: Option<nat>, vertex: nat, n: nat, visited: seq<bool>,
                       tovisit: seq<ToVisit>, values: seq<int>)
    returns (ok: bool, tovisit': seq<ToVisit>, values': seq<int>, ghost bad: nat)
    requires |visited| == |values| == n && vertex < n && visited[vertex]
    requires forall j :: 0 <= j < |list| ==> list[j].0 < n
    ensures ok ==> forall j :: 0 <= j < |list| && j != SkipIndex(list, parent) ==> !visited[list[j].0]
    ensures !ok ==> bad < |list| && bad != SkipIndex(list, parent) && visited[list[bad].0]
    ensures ok ==> tovisit' == tovisit + Pushed(list, SkipIndex(list, parent), vertex)
    ensures ok ==> ValuesFrom(list, SkipIndex(list, parent), values[vertex], n, values, values')
  {
    hide ValuesFrom, Pushed, SkipIndex;
    tovisit', values' := tovisit, values;
    ghost var s := SkipIndex(list, parent);
    var skip := true;
    ScanStart(list, s, vertex, n, values);
    for i := 0 to |list|
      invariant skip == (i <= s) && |values'| == n
      invariant values'[vertex] == values[vertex]
      invariant forall j :: 0 <= j < i && j != s ==> !visited[list[j].0]
      invariant tovisit' == tovisit + Pushed(list[..i], s, vertex)
      invariant ValuesFrom(list[..i], s, values[vertex], n, values, values')
    {
      var (neighbor, edgeValue) := list[i];
      PushedStep(list, s, vertex, i);
      if skip && Some(neighbor) == parent {
        skip := false;
        ValuesSkip(list, s, values[vertex], n, values, values');
        continue;
      }
      if visited[neighbor] {
        return false, tovisit', values', i;
      }
      ValuesStep(list, s, values[vertex], n, values, values', i);
      tovisit' := tovisit' + [ToVisit(Some(vertex), neighbor)];
      values' := values'[neighbor := (edgeValue - values'[vertex]) % n];
    }
    assert list[..|list|] == list;
    ok := true;
    bad := 0;
  }
}
