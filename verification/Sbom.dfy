/** The dependency closure a software bill of materials is built from. */
module Sbom {

  /** Each resolved node's dependencies, by package id. */
  type Graph<Id> = map<Id, seq<Id>>

  ghost predicate Edge<Id>(nodes: Graph<Id>, a: Id, b: Id) {
    a in nodes && b in nodes[a]
  }

  ghost predicate Path<Id(!new)>(nodes: Graph<Id>, p: seq<Id>, a: Id, b: Id) {
    && |p| > 0 && p[0] == a && p[|p| - 1] == b
    && forall i | 0 < i < |p| :: Edge(nodes, p[i - 1], p[i])
  }

  ghost predicate Reachable<Id(!new)>(nodes: Graph<Id>, a: Id, b: Id) {
    exists p :: Path(nodes, p, a, b)
  }

  lemma {:induction false} ReachesItself<Id(!new)>(nodes: Graph<Id>, a: Id)
    ensures Reachable(nodes, a, a)
  {
    assert Path(nodes, [a], a, a);
  }

  lemma {:induction false} ReachesNext<Id(!new)>(nodes: Graph<Id>, a: Id, b: Id, c: Id)
    requires Reachable(nodes, a, b) && Edge(nodes, b, c)
    ensures Reachable(nodes, a, c)
  {
    var p :| Path(nodes, p, a, b);
    assert Path(nodes, p + [c], a, c);
  }

  ghost predicate Closed<Id(!new)>(nodes: Graph<Id>, ids: set<Id>) {
    forall a, b | a in ids && Edge(nodes, a, b) :: b in ids
  }

  /** No path leaves a closed set. */
  lemma {:induction false} PathStaysInside<Id(!new)>(nodes: Graph<Id>, ids: set<Id>, p: seq<Id>, a: Id, b: Id)
    requires Closed(nodes, ids) && a in ids && Path(nodes, p, a, b)
    ensures b in ids
    decreases |p|
  {
    if |p| > 1 {
      var q := p[..|p| - 1];
      assert Path(nodes, q, a, q[|q| - 1]);
      PathStaysInside(nodes, ids, q, a, q[|q| - 1]);
      assert Edge(nodes, q[|q| - 1], b);
    }
  }

  /** Every id the traversal can meet. */
  ghost function Universe<Id(!new)>(nodes: Graph<Id>, root: Id): set<Id> {
    {root} + set a, b | a in nodes && b in nodes[a] :: b
  }

  /** Of what is not yet closed under edges, everything is still queued. */
  ghost predicate Frontier<Id(!new)>(nodes: Graph<Id>, seen: set<Id>, queue: seq<Id>) {
    forall a, b | a in seen && Edge(nodes, a, b) :: b in seen || b in queue
  }

  /** The ids reachable from the root, cycles and repeated queue entries included. */
  method Closure<Id(==, !new)>(nodes: Graph<Id>, root: Id) returns (seen: set<Id>)
    ensures forall id :: id in seen <==> Reachable(nodes, root, id)
  {
    seen := {};
    var queue := [root];
    ReachesItself(nodes, root);
    while |queue| > 0
      invariant root in seen || root in queue
      invariant seen <= Universe(nodes, root)
      invariant forall id | id in queue :: id in Universe(nodes, root)
      invariant forall id | id in seen || id in queue :: Reachable(nodes, root, id)
      invariant Frontier(nodes, seen, queue)
      decreases Universe(nodes, root) - seen, |queue|
    {
      var id := queue[|queue| - 1];
      ghost var before := queue;
      queue := queue[..|queue| - 1];
      assert before == queue + [id];
      if id in seen {
        continue;
      }
      seen := seen + {id};
      if id in nodes {
        queue := Enqueue(nodes, root, seen, queue, id);
      }
    }
    forall id | Reachable(nodes, root, id)
      ensures id in seen
    {
      var p :| Path(nodes, p, root, id);
      PathStaysInside(nodes, seen, p, root, id);
    }
  }

  method Enqueue<Id(==, !new)>(nodes: Graph<Id>, ghost root: Id, seen: set<Id>, queue: seq<Id>, id: Id)
    returns (longer: seq<Id>)
    requires id in nodes && Reachable(nodes, root, id)
    ensures queue <= longer
    ensures forall dep | dep in nodes[id] :: dep in seen || dep in longer
    ensures forall x | x in longer && x !in queue :: x in nodes[id] && Reachable(nodes, root, x)
  {
    longer := queue;
    var deps := nodes[id];
    for i := 0 to |deps|
      invariant queue <= longer
      invariant forall j | 0 <= j < i :: deps[j] in seen || deps[j] in longer
      invariant forall x | x in longer && x !in queue :: x in deps && Reachable(nodes, root, x)
    {
      if deps[i] !in seen {
        ReachesNext(nodes, root, id, deps[i]);
        longer := longer + [deps[i]];
      }
    }
  }
}
