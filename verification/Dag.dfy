/** Cycle detection on a workflow graph by depth-first search. */
module Dag {

  datatype Edge = Edge(source: string, target: string)

  type Adjacency = map<string, seq<string>>

  // ------------------------------------------------------------------
  // Graphs, walks and cycles
  // ------------------------------------------------------------------

  /** Only edges that leave a listed node are part of the graph. */
  predicate HasEdge(edges: seq<Edge>, nodes: seq<string>, u: string, v: string) {
    u in nodes && Edge(u, v) in edges
  }

  /** A non-empty path along edges that leads from a node back to itself. */
  ghost predicate IsCycle(edges: seq<Edge>, nodes: seq<string>, p: seq<string>) {
    && |p| >= 2 && p[0] == p[|p| - 1]
    && forall i :: 0 <= i < |p| - 1 ==> HasEdge(edges, nodes, p[i], p[i + 1])
  }

  function Succ(adj: Adjacency, u: string): seq<string> {
    if u in adj then adj[u] else []
  }

  ghost predicate IsWalk(adj: Adjacency, p: seq<string>) {
    |p| >= 2 && forall i :: 0 <= i < |p| - 1 ==> p[i + 1] in Succ(adj, p[i])
  }

  ghost predicate Reach(adj: Adjacency, u: string, v: string) {
    exists p :: IsWalk(adj, p) && p[0] == u && p[|p| - 1] == v
  }

  lemma ReachEdge(adj: Adjacency, u: string, v: string)
    requires v in Succ(adj, u)
    ensures Reach(adj, u, v)
  {
    assert IsWalk(adj, [u, v]);
  }

  lemma ReachOn(adj: Adjacency, u: string, v: string, w: string)
    requires Reach(adj, u, v) && w in Succ(adj, v)
    ensures Reach(adj, u, w)
  {
    var p :| IsWalk(adj, p) && p[0] == u && p[|p| - 1] == v;
    assert IsWalk(adj, p + [w]);
  }

  // ------------------------------------------------------------------
  // Finished nodes
  // ------------------------------------------------------------------

  /** In `order`, every node comes after all its successors. */
  ghost predicate SuccessorsFirst(adj: Adjacency, order: seq<string>) {
    && (forall i, j :: 0 <= i < j < |order| ==> order[i] != order[j])
    && (forall i, v :: 0 <= i < |order| && v in Succ(adj, order[i]) ==> v in order[..i])
  }

  lemma FinishNode(adj: Adjacency, order: seq<string>, id: string)
    requires SuccessorsFirst(adj, order) && id !in order
    requires forall v :: v in Succ(adj, id) ==> v in order
    ensures SuccessorsFirst(adj, order + [id])
  {
    var all := order + [id];
    forall i, v | 0 <= i < |all| && v in Succ(adj, all[i])
      ensures v in all[..i]
    {
      if i < |order| {
        assert all[..i] == order[..i];
      } else {
        assert all[..i] == order;
      }
    }
  }

  lemma {:induction false} WalkDescends(adj: Adjacency, order: seq<string>, p: seq<string>, i: nat) returns (j: nat)
    requires SuccessorsFirst(adj, order) && IsWalk(adj, p) && i < |order| && order[i] == p[0]
    ensures j < i && order[j] == p[|p| - 1]
    decreases |p|
  {
    assert p[1] in order[..i];
    var k :| 0 <= k < i && order[k] == p[1];
    if |p| == 2 {
      return k;
    }
    assert IsWalk(adj, p[1..]);
    j := WalkDescends(adj, order, p[1..], k);
  }

  /** Nothing finished lies on a cycle. */
  lemma FinishedIsAcyclic(adj: Adjacency, order: seq<string>, u: string)
    requires SuccessorsFirst(adj, order) && u in order
    ensures !Reach(adj, u, u)
  {
    if Reach(adj, u, u) {
      var p :| IsWalk(adj, p) && p[0] == u && p[|p| - 1] == u;
      var i :| 0 <= i < |order| && order[i] == u;
      var j := WalkDescends(adj, order, p, i);
    }
  }

  /** Whatever leads to `id`, and `id` itself, leads to its successors. */
  lemma AllReach(adj: Adjacency, sources: set<string>, id: string, v: string)
    requires v in Succ(adj, id) && forall s :: s in sources ==> Reach(adj, s, id)
    ensures forall s :: s in sources + {id} ==> Reach(adj, s, v)
  {
    forall s | s in sources + {id}
      ensures Reach(adj, s, v)
    {
      if s == id {
        ReachEdge(adj, id, v);
      } else {
        ReachOn(adj, s, id, v);
      }
    }
  }

  // ------------------------------------------------------------------
  // The search
  // ------------------------------------------------------------------

  /** Visited nodes are on the stack or finished, not both; finished nodes follow their successors. */
  ghost predicate Consistent(adj: Adjacency, visited: set<string>, stack: set<string>, finished: seq<string>) {
    && stack <= visited
    && (forall u :: u in finished <==> u in visited && u !in stack)
    && SuccessorsFirst(adj, finished)
  }

  lemma EnterKeeps(adj: Adjacency, visited: set<string>, stack: set<string>, finished: seq<string>, id: string)
    requires Consistent(adj, visited, stack, finished) && id !in visited
    ensures Consistent(adj, visited + {id}, stack + {id}, finished)
  {
  }

  lemma LeaveKeeps(adj: Adjacency, visited: set<string>, stack: set<string>, finished: seq<string>, id: string)
    requires Consistent(adj, visited, stack, finished) && id in stack
    requires forall v :: v in Succ(adj, id) ==> v in finished
    ensures Consistent(adj, visited, stack - {id}, finished + [id])
  {
    FinishNode(adj, finished, id);
  }

  class Search {
    const adj: Adjacency
    var visited: set<string>
    var stack: set<string>
    ghost var finished: seq<string>

    constructor (adj: Adjacency)
      ensures this.adj == adj && visited == {} && stack == {} && finished == []
    {
      this.adj := adj;
      visited, stack := {}, {};
      finished := [];
    }

    ghost predicate Valid()
      reads this
    {
      Consistent(adj, visited, stack, finished)
    }

    /** All targets of edges belong to `universe`. */
    ghost predicate Closed(universe: set<string>) {
      forall u, v :: v in Succ(adj, u) ==> v in universe
    }

    method Dfs(id: string, ghost universe: set<string>) returns (found: bool)
      requires Valid() && Closed(universe)
      requires id in universe && id !in visited
      requires forall s :: s in stack ==> Reach(adj, s, id)
      modifies this
      ensures found ==> exists u :: Reach(adj, u, u)
      ensures !found ==> Valid() && stack == old(stack) && id in visited
      ensures old(visited) <= visited
      ensures !found ==> old(finished) <= finished && id in finished
      decreases universe - visited
    {
      EnterKeeps(adj, visited, stack, finished, id);
      visited := visited + {id};
      stack := stack + {id};
      var next := Succ(adj, id);
      for k := 0 to |next|
        invariant Valid() && id in visited && stack == old(stack) + {id}
        invariant old(visited) <= visited && old(finished) <= finished
        invariant forall j :: 0 <= j < k ==> next[j] in finished
      {
        var v := next[k];
        assert v in Succ(adj, id);
        if v !in visited {
          AllReach(adj, old(stack), id, v);
          found := Dfs(v, universe);
          if found {
            return true;
          }
        }
        if v in stack {
          AllReach(adj, old(stack), id, v);
          assert Reach(adj, v, v);
          return true;
        }
      }
      LeaveKeeps(adj, visited, stack, finished, id);
      assert stack - {id} == old(stack);
      stack := stack - {id};
      finished := finished + [id];
      return false;
    }
  }

  /** The adjacency lists of the listed nodes, in edge order. */
  method BuildAdjacency(edges: seq<Edge>, nodes: seq<string>) returns (adj: Adjacency)
    ensures forall u, v :: v in Succ(adj, u) <==> HasEdge(edges, nodes, u, v)
    ensures forall u :: u in adj ==> u in nodes
  {
    adj := map[];
    for i := 0 to |nodes|
      invariant forall u :: u in adj <==> u in nodes[..i]
      invariant forall u :: u in adj ==> adj[u] == []
    {
      adj := adj[nodes[i] := []];
    }
    assert nodes[..|nodes|] == nodes;
    for i := 0 to |edges|
      invariant forall u :: u in adj <==> u in nodes
      invariant forall u, v :: u in adj ==> (v in adj[u] <==> Edge(u, v) in edges[..i])
    {
      var e := edges[i];
      assert edges[..i + 1] == edges[..i] + [e];
      if e.source in adj {
        adj := adj[e.source := adj[e.source] + [e.target]];
      }
    }
    assert edges[..|edges|] == edges;
  }

  lemma CycleIsReach(edges: seq<Edge>, nodes: seq<string>, adj: Adjacency)
    requires forall u, v :: v in Succ(adj, u) <==> HasEdge(edges, nodes, u, v)
    ensures (exists p :: IsCycle(edges, nodes, p)) <==> exists u :: Reach(adj, u, u)
    ensures forall u :: Reach(adj, u, u) ==> u in nodes
  {
    forall p | IsCycle(edges, nodes, p)
      ensures Reach(adj, p[0], p[0])
    {
      assert IsWalk(adj, p);
    }
    forall u | Reach(adj, u, u)
      ensures u in nodes
      ensures exists p :: IsCycle(edges, nodes, p)
    {
      var p :| IsWalk(adj, p) && p[0] == u && p[|p| - 1] == u;
      assert HasEdge(edges, nodes, p[0], p[1]);
      assert IsCycle(edges, nodes, p);
    }
  }

  /** True exactly when the graph has a cycle. */
  method HasCycle(edges: seq<Edge>, nodes: seq<string>) returns (found: bool)
    ensures found <==> exists p :: IsCycle(edges, nodes, p)
  {
    var adj := BuildAdjacency(edges, nodes);
    CycleIsReach(edges, nodes, adj);
    ghost var universe := (set n | n in nodes) + (set e | e in edges :: e.target);
    var search := new Search(adj);
    for i := 0 to |nodes|
      invariant search.Valid() && search.stack == {} && search.Closed(universe)
      invariant forall j :: 0 <= j < i ==> nodes[j] in search.finished
    {
      if nodes[i] !in search.visited {
        found := search.Dfs(nodes[i], universe);
        if found {
          return true;
        }
      }
    }
    forall u | Reach(adj, u, u)
      ensures false
    {
      FinishedIsAcyclic(adj, search.finished, u);
    }
    return false;
  }
}
