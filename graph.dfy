/** why-data's `graph` module: the `CausalGraph` façade over petgraph's `Graph`, `add_edges`, and the
    lazy, non-recursive `Ancestors` walk with its soundness and completeness against backward reachability. */
module Graph {
  import opened Wrappers

  // ---------------------------------------------------------------------------------------------
  // petgraph's `Graph`, as far as this crate uses it
  // ---------------------------------------------------------------------------------------------

  /** petgraph's edge-type parameter `Ty` (`Directed` or `Undirected`). */
  datatype Directedness = Directed | Undirected

  /** One stored edge: its endpoints as node indices and its weight. */
  datatype Edge<E> = Edge(source: nat, target: nat, weight: E)

  /** petgraph's `Graph`: node weights and edges, each indexed by insertion order. */
  datatype Graph<N, E> = Graph(nodes: seq<N>, edges: seq<Edge<E>>)

  /** Every edge joins two existing nodes; petgraph's `add_edge` panics on anything else. */
  predicate WellFormed<N, E>(g: Graph<N, E>) {
    forall i :: 0 <= i < |g.edges| ==> g.edges[i].source < |g.nodes| && g.edges[i].target < |g.nodes|
  }

  /** petgraph's `Graph::add_node`: appends the weight and returns its index. */
  function AddGraphNode<N, E>(g: Graph<N, E>, n: N): (r: (Graph<N, E>, nat))
    ensures r.0.nodes == g.nodes + [n] && r.0.edges == g.edges
    ensures r.1 == |g.nodes|
    ensures WellFormed(g) ==> WellFormed(r.0)
  {
    (Graph(g.nodes + [n], g.edges), |g.nodes|)
  }

  /** petgraph's `Graph::add_edge`: appends the edge and returns its index. */
  function AddGraphEdge<N, E>(g: Graph<N, E>, a: nat, b: nat, e: E): (r: (Graph<N, E>, nat))
    requires a < |g.nodes| && b < |g.nodes|
    ensures r.0.nodes == g.nodes && r.0.edges == g.edges + [Edge(a, b, e)]
    ensures r.1 == |g.edges|
    ensures WellFormed(g) ==> WellFormed(r.0)
  {
    (Graph(g.nodes, g.edges + [Edge(a, b, e)]), |g.edges|)
  }

  // ---------------------------------------------------------------------------------------------
  // The `CausalGraph` façade
  // ---------------------------------------------------------------------------------------------

  /** `CausalGraph`: a directed or an undirected petgraph graph; the tag is fixed once chosen. */
  datatype CausalGraph<N, E> = Dag(graph: Graph<N, E>) | Ungraph(graph: Graph<N, E>) {

    /** `CausalGraph::add_node`: the held graph gains exactly the node `n`, at the returned index;
        the tag and the edges are unchanged. */
    function AddNode(n: N): (r: (CausalGraph<N, E>, nat))
      ensures r.0.Dag? == Dag?
      ensures r.0.graph.nodes == graph.nodes + [n] && r.0.graph.edges == graph.edges
      ensures r.1 == |graph.nodes| && r.0.graph.nodes[r.1] == n
      ensures WellFormed(graph) ==> WellFormed(r.0.graph)
    {
      match this
      case Dag(g) => var (g', i) := AddGraphNode(g, n); (Dag(g'), i)
      case Ungraph(g) => var (g', i) := AddGraphNode(g, n); (Ungraph(g'), i)
    }

    /** `CausalGraph::add_edge`: the held graph gains exactly the edge `left -> right`, at the returned
        index; the tag and the nodes are unchanged. */
    function AddEdge(left: nat, right: nat, e: E): (r: (CausalGraph<N, E>, nat))
      requires left < |graph.nodes| && right < |graph.nodes|
      ensures r.0.Dag? == Dag?
      ensures r.0.graph.nodes == graph.nodes && r.0.graph.edges == graph.edges + [Edge(left, right, e)]
      ensures r.1 == |graph.edges| && r.0.graph.edges[r.1] == Edge(left, right, e)
      ensures WellFormed(graph) ==> WellFormed(r.0.graph)
    {
      match this
      case Dag(g) => var (g', i) := AddGraphEdge(g, left, right, e); (Dag(g'), i)
      case Ungraph(g) => var (g', i) := AddGraphEdge(g, left, right, e); (Ungraph(g'), i)
    }
  }

  /** The m-th new edge of `add_edges` as petgraph stores it. */
  function EdgeOf<E>(t: (nat, nat, E)): Edge<E> {
    Edge(t.0, t.1, t.2)
  }

  /** `CausalGraphExt::add_edges` on a petgraph `Graph`: one `add_edge` per item, in iteration order.
      The items must name existing nodes, as `add_edge` panics otherwise. */
  method AddEdges<N, E>(g: Graph<N, E>, edges: seq<(nat, nat, E)>) returns (r: Graph<N, E>)
    requires forall k :: 0 <= k < |edges| ==> edges[k].0 < |g.nodes| && edges[k].1 < |g.nodes|
    ensures r.nodes == g.nodes
    ensures |r.edges| == |g.edges| + |edges| && r.edges[..|g.edges|] == g.edges
    ensures forall k :: 0 <= k < |edges| ==> r.edges[|g.edges| + k] == EdgeOf(edges[k])
    ensures WellFormed(g) ==> WellFormed(r)
  {
    r := g;
    for i := 0 to |edges|
      invariant r.nodes == g.nodes
      invariant |r.edges| == |g.edges| + i && r.edges[..|g.edges|] == g.edges
      invariant forall k :: 0 <= k < i ==> r.edges[|g.edges| + k] == EdgeOf(edges[k])
      invariant WellFormed(g) ==> WellFormed(r)
    {
      var (r', _) := AddGraphEdge(r, edges[i].0, edges[i].1, edges[i].2);
      r := r';
    }
  }

  // ---------------------------------------------------------------------------------------------
  // `neighbors_directed(v, Incoming)`: the list a `WalkNeighbors` cursor runs through
  // ---------------------------------------------------------------------------------------------

  /** Sources of the edges entering `v`, newest edge first (petgraph keeps each node's edge lists with
      the latest edge at the head). With `skipLoops`, self-loops are passed over. */
  function IncomingSources<E>(es: seq<Edge<E>>, v: nat, skipLoops: bool): seq<nat>
    decreases |es|
  {
    if es == [] then []
    else
      var e := es[|es| - 1];
      (if e.target == v && !(skipLoops && e.source == v) then [e.source] else [])
      + IncomingSources(es[..|es| - 1], v, skipLoops)
  }

  /** Targets of the edges leaving `v`, newest edge first. */
  function OutgoingTargets<E>(es: seq<Edge<E>>, v: nat): seq<nat>
    decreases |es|
  {
    if es == [] then []
    else
      var e := es[|es| - 1];
      (if e.source == v then [e.target] else []) + OutgoingTargets(es[..|es| - 1], v)
  }

  /** The neighbours `neighbors_directed(v, Incoming)` yields: in a directed graph the sources of the
      incoming edges; in an undirected graph petgraph ignores the direction and walks both edge lists,
      counting a self-loop once. */
  function Incoming<N, E>(ty: Directedness, g: Graph<N, E>, v: nat): seq<nat> {
    match ty
    case Directed => IncomingSources(g.edges, v, false)
    case Undirected => OutgoingTargets(g.edges, v) + IncomingSources(g.edges, v, true)
  }

  /** Edge `e` lets the backward walk step from `v` to `u`. */
  predicate Joins<E>(ty: Directedness, e: Edge<E>, v: nat, u: nat) {
    (e.source == u && e.target == v) || (ty == Undirected && e.source == v && e.target == u)
  }

  /** Some edge of `g` lets the backward walk step from `v` to `u`. */
  ghost predicate BackEdge<N, E>(ty: Directedness, g: Graph<N, E>, v: nat, u: nat) {
    exists i :: 0 <= i < |g.edges| && Joins(ty, g.edges[i], v, u)
  }

  lemma {:induction false} IncomingSourcesMembers<E>(es: seq<Edge<E>>, v: nat, skipLoops: bool, u: nat)
    ensures u in IncomingSources(es, v, skipLoops) <==>
      exists i :: 0 <= i < |es| && es[i].target == v && es[i].source == u && !(skipLoops && u == v)
    decreases |es|
  {
    if es != [] {
      var n := |es| - 1;
      var front := es[..n];
      IncomingSourcesMembers(front, v, skipLoops, u);
      if exists i :: 0 <= i < |es| && es[i].target == v && es[i].source == u && !(skipLoops && u == v) {
        var i :| 0 <= i < |es| && es[i].target == v && es[i].source == u && !(skipLoops && u == v);
        if i < n {
          assert front[i] == es[i];
        }
      }
      if u in IncomingSources(front, v, skipLoops) {
        var i :| 0 <= i < |front| && front[i].target == v && front[i].source == u && !(skipLoops && u == v);
        assert es[i] == front[i];
      }
    }
  }

  /** Some edge of `es` leaves `v` for `u`. */
  ghost predicate LeavesFor<E>(es: seq<Edge<E>>, v: nat, u: nat) {
    exists i :: 0 <= i < |es| && es[i].source == v && es[i].target == u
  }

  lemma LeavesForSnoc<E>(es: seq<Edge<E>>, v: nat, u: nat)
    requires es != []
    ensures LeavesFor(es, v, u) <==>
      LeavesFor(es[..|es| - 1], v, u) || (es[|es| - 1].source == v && es[|es| - 1].target == u)
  {
    var front := es[..|es| - 1];
    if LeavesFor(front, v, u) {
      var i :| 0 <= i < |front| && front[i].source == v && front[i].target == u;
      assert es[i] == front[i];
    }
    if LeavesFor(es, v, u) {
      var i :| 0 <= i < |es| && es[i].source == v && es[i].target == u;
      if i < |front| {
        assert front[i] == es[i];
      }
    }
  }

  lemma {:induction false} OutgoingTargetsMembers<E>(es: seq<Edge<E>>, v: nat, u: nat)
    ensures u in OutgoingTargets(es, v) <==> exists i :: 0 <= i < |es| && es[i].source == v && es[i].target == u
    decreases |es|
  {
    assert LeavesFor(es, v, u) <==> exists i :: 0 <= i < |es| && es[i].source == v && es[i].target == u;
    if es != [] {
      OutgoingTargetsMembers(es[..|es| - 1], v, u);
      LeavesForSnoc(es, v, u);
    }
  }

  /** The walk list of `v` holds exactly the nodes one backward step away from `v`. */
  lemma IncomingIsBackEdge<N, E>(ty: Directedness, g: Graph<N, E>, v: nat, u: nat)
    ensures u in Incoming(ty, g, v) <==> BackEdge(ty, g, v, u)
  {
    IncomingSourcesMembers(g.edges, v, ty == Undirected, u);
    if ty == Undirected {
      OutgoingTargetsMembers(g.edges, v, u);
      if BackEdge(ty, g, v, u) {
        var i :| 0 <= i < |g.edges| && Joins(ty, g.edges[i], v, u);
        if u == v {
          assert g.edges[i].source == v && g.edges[i].target == u;
        }
      }
    }
  }

  // ---------------------------------------------------------------------------------------------
  // Backward reachability: the reference the walk is proved against
  // ---------------------------------------------------------------------------------------------

  /** `p` starts anywhere and each next node is one backward step from the previous one. */
  ghost predicate BackwardPath<N, E>(ty: Directedness, g: Graph<N, E>, p: seq<nat>) {
    |p| >= 1 && forall i, j :: 0 <= i && j == i + 1 && j < |p| ==> BackEdge(ty, g, p[i], p[j])
  }

  /** `u` can be reached from `start` by following edges backward (zero or more steps). */
  ghost predicate Reachable<N, E>(ty: Directedness, g: Graph<N, E>, start: nat, u: nat) {
    exists p {:trigger BackwardPath(ty, g, p)} :: BackwardPath(ty, g, p) && p[0] == start && p[|p| - 1] == u
  }

  /** The ancestors of `start`: every other node it can reach backward. */
  ghost function AncestorSet<N, E>(ty: Directedness, g: Graph<N, E>, start: nat): set<nat> {
    set u | 0 <= u < |g.nodes| && u != start && Reachable(ty, g, start, u)
  }

  lemma ReachableStart<N, E>(ty: Directedness, g: Graph<N, E>, start: nat)
    ensures Reachable(ty, g, start, start)
  {
    assert BackwardPath(ty, g, [start]);
  }

  /** One more backward step keeps a node reachable. */
  lemma ReachableStep<N, E>(ty: Directedness, g: Graph<N, E>, start: nat, v: nat, u: nat)
    requires Reachable(ty, g, start, v) && BackEdge(ty, g, v, u)
    ensures Reachable(ty, g, start, u)
  {
    var p :| BackwardPath(ty, g, p) && p[0] == start && p[|p| - 1] == v;
    var q := p + [u];
    forall i | 0 <= i < |q| - 1
      ensures BackEdge(ty, g, q[i], q[i + 1])
    {
      if i < |p| - 1 {
        assert q[i] == p[i] && q[i + 1] == p[i + 1];
      }
    }
    assert BackwardPath(ty, g, q) && q[0] == start && q[|q| - 1] == u;
  }

  /** Every node other than `start` that `start` reaches is a node of a well-formed graph. */
  lemma ReachableInRange<N, E>(ty: Directedness, g: Graph<N, E>, start: nat, u: nat)
    requires WellFormed(g) && Reachable(ty, g, start, u) && u != start
    ensures u < |g.nodes|
  {
    var p :| BackwardPath(ty, g, p) && p[0] == start && p[|p| - 1] == u;
    assert |p| >= 2;
    assert BackEdge(ty, g, p[|p| - 2], p[|p| - 1]);
    var i :| 0 <= i < |g.edges| && Joins(ty, g.edges[i], p[|p| - 2], u);
  }

  /** A set that holds `start` and every backward neighbour of its members holds every prefix's end. */
  lemma {:induction false} ClosedHoldsPath<N, E>(ty: Directedness, g: Graph<N, E>, s: set<nat>, p: seq<nat>)
    requires BackwardPath(ty, g, p) && p[0] in s
    requires forall v, u :: v in s && BackEdge(ty, g, v, u) ==> u in s
    ensures p[|p| - 1] in s
    decreases |p|
  {
    if |p| > 1 {
      var front := p[..|p| - 1];
      assert BackwardPath(ty, g, front) by {
        forall i | 0 <= i < |front| - 1
          ensures BackEdge(ty, g, front[i], front[i + 1])
        {
          assert front[i] == p[i] && front[i + 1] == p[i + 1];
        }
      }
      ClosedHoldsPath(ty, g, s, front);
      assert BackEdge(ty, g, p[|p| - 2], p[|p| - 1]);
    }
  }

  /** Completeness criterion: a set holding `start` and closed under backward steps holds every node
      reachable from `start`. */
  lemma ClosedHoldsReachable<N, E>(ty: Directedness, g: Graph<N, E>, start: nat, s: set<nat>)
    requires start in s
    requires forall v, u :: v in s && BackEdge(ty, g, v, u) ==> u in s
    ensures forall u :: Reachable(ty, g, start, u) ==> u in s
  {
    forall u | Reachable(ty, g, start, u)
      ensures u in s
    {
      var p :| BackwardPath(ty, g, p) && p[0] == start && p[|p| - 1] == u;
      ClosedHoldsPath(ty, g, s, p);
    }
  }

  // ---------------------------------------------------------------------------------------------
  // The `Ancestors` iterator
  // ---------------------------------------------------------------------------------------------

  /** A detached `WalkNeighbors`: how far the walk of `node`'s incoming list has got. */
  datatype Cursor = Cursor(node: nat, pos: nat)

  predicate Distinct(s: seq<nat>) {
    forall i, j :: 0 <= i < j < |s| ==> s[i] != s[j]
  }

  /** visited = {start} + yielded, where yielded has no repeats and does not hold start. */
  ghost predicate VisitedRecord(start: nat, visited: set<nat>, yielded: seq<nat>) {
    && (forall x :: x in visited <==> x == start || x in yielded)
    && start !in yielded
    && Distinct(yielded)
    && |visited| == |yielded| + 1
  }

  /** The cursor walks a visited node, and every neighbour it has moved past is visited. */
  ghost predicate CursorOk<N, E>(ty: Directedness, g: Graph<N, E>, visited: set<nat>, c: Cursor) {
    && c.node in visited
    && c.pos <= |Incoming(ty, g, c.node)|
    && forall i :: 0 <= i < c.pos ==> Incoming(ty, g, c.node)[i] in visited
  }

  ghost predicate CursorsOk<N, E>(ty: Directedness, g: Graph<N, E>, visited: set<nat>, pending: seq<Cursor>) {
    forall k :: 0 <= k < |pending| ==> CursorOk(ty, g, visited, pending[k])
  }

  ghost predicate AllReachable<N, E>(ty: Directedness, g: Graph<N, E>, start: nat, visited: set<nat>) {
    forall v :: v in visited ==> Reachable(ty, g, start, v)
  }

  /** Every incoming neighbour of `v` is visited. */
  ghost predicate Explored<N, E>(ty: Directedness, g: Graph<N, E>, visited: set<nat>, v: nat) {
    forall i :: 0 <= i < |Incoming(ty, g, v)| ==> Incoming(ty, g, v)[i] in visited
  }

  ghost predicate HasCursor(pending: seq<Cursor>, v: nat) {
    exists k :: 0 <= k < |pending| && pending[k].node == v
  }

  /** Every visited node is either fully explored or still walked by a pending cursor. */
  ghost predicate Covered<N, E>(ty: Directedness, g: Graph<N, E>, visited: set<nat>, pending: seq<Cursor>) {
    forall v :: v in visited ==> Explored(ty, g, visited, v) || HasCursor(pending, v)
  }

  /** The state of a walk from `start` that has yielded `yielded` so far. */
  ghost predicate WalkInvariant<N, E>(ty: Directedness, g: Graph<N, E>, start: nat,
                                      visited: set<nat>, pending: seq<Cursor>, yielded: seq<nat>) {
    && WellFormed(g)
    && VisitedRecord(start, visited, yielded)
    && CursorsOk(ty, g, visited, pending)
    && AllReachable(ty, g, start, visited)
    && Covered(ty, g, visited, pending)
  }

  lemma RecordGrow(start: nat, visited: set<nat>, yielded: seq<nat>, u: nat)
    requires VisitedRecord(start, visited, yielded) && u !in visited
    ensures VisitedRecord(start, visited + {u}, yielded + [u])
  {
    var y := yielded + [u];
    forall i, j | 0 <= i < j < |y|
      ensures y[i] != y[j]
    {
      if j < |yielded| {
        assert y[i] == yielded[i] && y[j] == yielded[j];
      } else {
        assert y[i] == yielded[i] && yielded[i] in yielded;
      }
    }
  }

  lemma CursorsGrow<N, E>(ty: Directedness, g: Graph<N, E>, visited: set<nat>, pending: seq<Cursor>, v: nat, pos: nat)
    requires 0 < pos <= |Incoming(ty, g, v)|
    requires CursorsOk(ty, g, visited, pending + [Cursor(v, pos - 1)])
    ensures var u := Incoming(ty, g, v)[pos - 1];
      CursorsOk(ty, g, visited + {u}, [Cursor(v, pos)] + pending + [Cursor(u, 0)])
  {
    var u := Incoming(ty, g, v)[pos - 1];
    var before := pending + [Cursor(v, pos - 1)];
    var after := [Cursor(v, pos)] + pending + [Cursor(u, 0)];
    assert CursorOk(ty, g, visited, before[|pending|]);
    forall k | 0 <= k < |after|
      ensures CursorOk(ty, g, visited + {u}, after[k])
    {
      if 0 < k < |after| - 1 {
        assert after[k] == before[k - 1];
        assert CursorOk(ty, g, visited, before[k - 1]);
      }
    }
  }

  lemma CoveredGrow<N, E>(ty: Directedness, g: Graph<N, E>, visited: set<nat>, pending: seq<Cursor>, v: nat, pos: nat, u: nat)
    requires 0 < pos
    requires Covered(ty, g, visited, pending + [Cursor(v, pos - 1)])
    ensures Covered(ty, g, visited + {u}, [Cursor(v, pos)] + pending + [Cursor(u, 0)])
  {
    var before := pending + [Cursor(v, pos - 1)];
    var after := [Cursor(v, pos)] + pending + [Cursor(u, 0)];
    forall w | w in visited + {u}
      ensures Explored(ty, g, visited + {u}, w) || HasCursor(after, w)
    {
      if w == u {
        assert after[|after| - 1].node == u;
      } else if !Explored(ty, g, visited, w) {
        var k :| 0 <= k < |before| && before[k].node == w;
        if k < |pending| {
          assert after[k + 1] == before[k];
        } else {
          assert after[0].node == w;
        }
      }
    }
  }

  /** The popped cursor `c` found the unvisited neighbour `u`: mark it, queue a fresh cursor for it at
      the back, put the advanced cursor back at the front. */
  lemma StepFound<N, E>(ty: Directedness, g: Graph<N, E>, start: nat, visited: set<nat>,
                        pending: seq<Cursor>, yielded: seq<nat>, c: Cursor)
    requires c.pos < |Incoming(ty, g, c.node)|
    requires WalkInvariant(ty, g, start, visited, pending + [c], yielded)
    requires Incoming(ty, g, c.node)[c.pos] !in visited
    ensures var u := Incoming(ty, g, c.node)[c.pos];
      WalkInvariant(ty, g, start, visited + {u}, [Cursor(c.node, c.pos + 1)] + pending + [Cursor(u, 0)], yielded + [u])
  {
    var v, pos := c.node, c.pos + 1;
    assert c == Cursor(v, pos - 1);
    var u := Incoming(ty, g, v)[pos - 1];
    RecordGrow(start, visited, yielded, u);
    CursorsGrow(ty, g, visited, pending, v, pos);
    CoveredGrow(ty, g, visited, pending, v, pos, u);
    assert CursorOk(ty, g, visited, (pending + [c])[|pending|]);
    IncomingIsBackEdge(ty, g, v, u);
    ReachableStep(ty, g, start, v, u);
  }

  /** The popped cursor `c` moved past already visited neighbours up to position `pos`. */
  lemma StepSkip<N, E>(ty: Directedness, g: Graph<N, E>, start: nat, visited: set<nat>,
                       pending: seq<Cursor>, yielded: seq<nat>, c: Cursor, pos: nat)
    requires c.pos <= pos <= |Incoming(ty, g, c.node)|
    requires WalkInvariant(ty, g, start, visited, pending + [c], yielded)
    requires forall i :: c.pos <= i < pos ==> Incoming(ty, g, c.node)[i] in visited
    ensures WalkInvariant(ty, g, start, visited, pending + [Cursor(c.node, pos)], yielded)
  {
    var before := pending + [c];
    var after := pending + [Cursor(c.node, pos)];
    assert CursorOk(ty, g, visited, before[|pending|]);
    forall k | 0 <= k < |after|
      ensures CursorOk(ty, g, visited, after[k])
    {
      if k < |pending| {
        assert after[k] == before[k];
      }
    }
    forall w | w in visited
      ensures Explored(ty, g, visited, w) || HasCursor(after, w)
    {
      if !Explored(ty, g, visited, w) {
        var k :| 0 <= k < |before| && before[k].node == w;
        assert after[k].node == w;
      }
    }
  }

  /** The popped cursor ran out: it is dropped, and its node is now fully explored. */
  lemma StepExhausted<N, E>(ty: Directedness, g: Graph<N, E>, start: nat, visited: set<nat>,
                            pending: seq<Cursor>, yielded: seq<nat>, v: nat)
    requires WalkInvariant(ty, g, start, visited, pending + [Cursor(v, |Incoming(ty, g, v)|)], yielded)
    ensures WalkInvariant(ty, g, start, visited, pending, yielded)
  {
    var before := pending + [Cursor(v, |Incoming(ty, g, v)|)];
    assert CursorOk(ty, g, visited, before[|pending|]);
    forall k | 0 <= k < |pending|
      ensures CursorOk(ty, g, visited, pending[k])
    {
      assert pending[k] == before[k];
    }
    forall w | w in visited
      ensures Explored(ty, g, visited, w) || HasCursor(pending, w)
    {
      if w != v && !Explored(ty, g, visited, w) {
        var k :| 0 <= k < |before| && before[k].node == w;
        assert k < |pending| && pending[k].node == w;
      }
    }
  }

  /** One round of the outer loop of `next`: the popped cursor `c` was moved to `pos`, and `found` is the
      unvisited neighbour it stopped after, if any. */
  lemma StepScanned<N, E>(ty: Directedness, g: Graph<N, E>, start: nat, visited: set<nat>,
                          pending: seq<Cursor>, yielded: seq<nat>, c: Cursor, pos: nat, found: Option<nat>)
    requires WalkInvariant(ty, g, start, visited, pending + [c], yielded)
    requires ScanResult(ty, g, visited, c, pos, found)
    ensures found.None? ==> WalkInvariant(ty, g, start, visited, pending, yielded)
    ensures found.Some? ==> WalkInvariant(ty, g, start, visited + {found.value},
                                          [Cursor(c.node, pos)] + pending + [Cursor(found.value, 0)],
                                          yielded + [found.value])
  {
    if found.Some? {
      StepSkip(ty, g, start, visited, pending, yielded, c, pos - 1);
      StepFound(ty, g, start, visited, pending, yielded, Cursor(c.node, pos - 1));
    } else {
      StepSkip(ty, g, start, visited, pending, yielded, c, pos);
      StepExhausted(ty, g, start, visited, pending, yielded, c.node);
    }
  }

  /** Soundness: whatever the walk has yielded is an ancestor of `start`. */
  lemma WalkSound<N, E>(ty: Directedness, g: Graph<N, E>, start: nat, visited: set<nat>,
                        pending: seq<Cursor>, yielded: seq<nat>)
    requires WalkInvariant(ty, g, start, visited, pending, yielded)
    ensures forall u :: u in yielded ==> u in AncestorSet(ty, g, start)
  {
    forall u | u in yielded
      ensures u in AncestorSet(ty, g, start)
    {
      assert u in visited;
      ReachableInRange(ty, g, start, u);
    }
  }

  /** The set of the elements of `s`. */
  ghost function Elements(s: seq<nat>): set<nat> {
    set x | x in s
  }

  lemma ElementsSnoc(s: seq<nat>, x: nat)
    ensures Elements(s + [x]) == Elements(s) + {x}
  {
    assert forall y :: y in s + [x] <==> y in s || y == x;
  }

  /** Completeness: with no cursor left the visited set is closed under backward steps, so the walk has
      yielded every ancestor and nothing else. */
  lemma WalkComplete<N, E>(ty: Directedness, g: Graph<N, E>, start: nat, visited: set<nat>, yielded: seq<nat>)
    requires WalkInvariant(ty, g, start, visited, [], yielded)
    ensures Elements(yielded) == AncestorSet(ty, g, start)
  {
    forall v, u | v in visited && BackEdge(ty, g, v, u)
      ensures u in visited
    {
      IncomingIsBackEdge(ty, g, v, u);
      assert Explored(ty, g, visited, v);
      var i :| 0 <= i < |Incoming(ty, g, v)| && Incoming(ty, g, v)[i] == u;
    }
    ClosedHoldsReachable(ty, g, start, visited);
    WalkSound(ty, g, start, visited, [], yielded);
    forall u | u in AncestorSet(ty, g, start)
      ensures u in yielded
    {
      assert u in visited;
    }
  }

  /** The node indices `0 .. n - 1`. */
  function Range(n: nat): (r: set<nat>)
    ensures |r| == n
    ensures forall i :: i in r <==> 0 <= i < n
  {
    if n == 0 then {} else Range(n - 1) + {n - 1}
  }

  lemma SubsetSize(a: set<nat>, b: set<nat>)
    requires a <= b
    ensures |a| <= |b|
  {
    assert b == a + (b - a);
  }

  /** The visited nodes are `start` and existing nodes, so there are at most |nodes| + 1 of them. */
  lemma VisitedInRange<N, E>(ty: Directedness, g: Graph<N, E>, start: nat, visited: set<nat>,
                             pending: seq<Cursor>, yielded: seq<nat>)
    requires WalkInvariant(ty, g, start, visited, pending, yielded)
    ensures visited <= Range(|g.nodes|) + {start}
    ensures |visited| <= |g.nodes| + 1
  {
    WalkSound(ty, g, start, visited, pending, yielded);
    SubsetSize(visited, Range(|g.nodes|) + {start});
  }

  /** A walk from an existing node yields at most |nodes| - 1 nodes. */
  lemma YieldBound<N, E>(ty: Directedness, g: Graph<N, E>, start: nat, visited: set<nat>,
                         pending: seq<Cursor>, yielded: seq<nat>)
    requires WalkInvariant(ty, g, start, visited, pending, yielded) && start < |g.nodes|
    ensures |yielded| <= |g.nodes| - 1
  {
    VisitedInRange(ty, g, start, visited, pending, yielded);
    assert Range(|g.nodes|) + {start} == Range(|g.nodes|);
    SubsetSize(visited, Range(|g.nodes|));
  }

  /** The cursor `c` was moved to `pos`, past visited neighbours only, and stopped right after the
      unvisited neighbour `found`, or at the end of the list when there was none. */
  ghost predicate ScanResult<N, E>(ty: Directedness, g: Graph<N, E>, visited: set<nat>, c: Cursor,
                                   pos: nat, found: Option<nat>) {
    var list := Incoming(ty, g, c.node);
    && c.pos <= pos <= |list|
    && (found.None? ==> pos == |list|)
    && (found.Some? ==> c.pos < pos && list[pos - 1] == found.value && found.value !in visited)
    && forall i :: c.pos <= i < (if found.Some? then pos - 1 else pos) ==> list[i] in visited
  }

  /** The inner loop of `next`: advance the walk of `c.node`'s incoming list until it meets a node that is
      not yet visited. */
  method NextUnvisited<N, E>(ty: Directedness, g: Graph<N, E>, visited: set<nat>, c: Cursor)
    returns (pos: nat, found: Option<nat>)
    requires c.pos <= |Incoming(ty, g, c.node)|
    ensures ScanResult(ty, g, visited, c, pos, found)
  {
    var list := Incoming(ty, g, c.node);
    pos := c.pos;
    found := None;
    while pos < |list|
      invariant c.pos <= pos <= |list|
      invariant forall i :: c.pos <= i < pos ==> list[i] in visited
    {
      var u := list[pos];
      pos := pos + 1;
      if u !in visited {
        found := Some(u);
        return;
      }
    }
  }

  /** The cursors after `next` found `u`: the cursors below the one that found it are kept in order,
      that cursor, advanced, goes to the front, and a fresh cursor for `u` goes to the back; the cursors
      above it were exhausted and dropped. */
  predicate CursorsAfterFound(before: seq<Cursor>, after: seq<Cursor>, u: nat) {
    var k := |after| - 2;
    && 2 <= |after| && k < |before|
    && after[0].node == before[k].node && before[k].pos <= after[0].pos
    && after[1..k + 1] == before[..k]
    && after[k + 1] == Cursor(u, 0)
  }

  /** Popping `c`, the last of the first |all| cursors, and finding `u` leaves the cursors in the order
      `CursorsAfterFound` describes. */
  lemma FoundOrder(before: seq<Cursor>, all: seq<Cursor>, c: Cursor, pos: nat, u: nat)
    requires 0 < |all| <= |before| && all == before[..|all|] && c == all[|all| - 1] && c.pos <= pos
    ensures CursorsAfterFound(before, [Cursor(c.node, pos)] + all[..|all| - 1] + [Cursor(u, 0)], u)
  {
    var after := [Cursor(c.node, pos)] + all[..|all| - 1] + [Cursor(u, 0)];
    assert after[1..|all|] == all[..|all| - 1] == before[..|all| - 1];
  }

  /** `Ancestors`: the state of a lazy walk over the graph `g` of kind `ty`, started at `start`.
      `yielded` records, for the proof, the nodes returned so far. */
  class Ancestors<N, E> {
    const ty: Directedness
    const g: Graph<N, E>
    const start: nat
    var visited: set<nat>
    var pendingNeighbors: seq<Cursor>
    ghost var yielded: seq<nat>

    ghost predicate Valid()
      reads this
    {
      WalkInvariant(ty, g, start, visited, pendingNeighbors, yielded)
    }

    /** `Ancestors::new` (reached through `CausalGraphExt::ancestors`): `visited` is `{node}` and the one
        pending cursor is at the head of `node`'s incoming list. */
    constructor (ty: Directedness, g: Graph<N, E>, node: nat)
      requires WellFormed(g)
      ensures Valid()
      ensures this.ty == ty && this.g == g && start == node
      ensures visited == {node} && pendingNeighbors == [Cursor(node, 0)] && yielded == []
    {
      this.ty := ty;
      this.g := g;
      start := node;
      visited := {node};
      pendingNeighbors := [Cursor(node, 0)];
      yielded := [];
      new;
      ReachableStart(ty, g, node);
      assert pendingNeighbors[0].node == node;
    }

    /** `Iterator::next`: yields an unvisited ancestor, or `None` once every ancestor has been yielded. */
    method Next() returns (r: Option<nat>)
      requires Valid()
      modifies this
      ensures Valid()
      ensures old(pendingNeighbors) == [] ==> r == None
      ensures r.Some? ==> r.value !in old(visited) && r.value in AncestorSet(ty, g, start)
      ensures r.Some? ==> visited == old(visited) + {r.value} && yielded == old(yielded) + [r.value]
      ensures r.None? ==> pendingNeighbors == [] && visited == old(visited) && yielded == old(yielded)
      ensures r.None? ==> Elements(yielded) == AncestorSet(ty, g, start)
      ensures r.Some? ==> CursorsAfterFound(old(pendingNeighbors), pendingNeighbors, r.value)
    {
      if pendingNeighbors == [] {
        WalkComplete(ty, g, start, visited, yielded);
        return None;
      }
      var found: Option<nat> := None;
      while pendingNeighbors != []
        invariant Valid()
        invariant visited == old(visited) && yielded == old(yielded)
        invariant |pendingNeighbors| <= |old(pendingNeighbors)|
        invariant pendingNeighbors == old(pendingNeighbors)[..|pendingNeighbors|]
        decreases |pendingNeighbors|
      {
        // pop the most recently pushed cursor and advance it to the first unvisited neighbour
        var all := pendingNeighbors;
        var neighbors := all[|all| - 1];
        pendingNeighbors := all[..|all| - 1];
        assert pendingNeighbors + [neighbors] == all;
        assert CursorOk(ty, g, visited, all[|all| - 1]);
        var pos, next := NextUnvisited(ty, g, visited, neighbors);
        StepScanned(ty, g, start, visited, pendingNeighbors, yielded, neighbors, pos, next);
        if next.Some? {
          // mark it, walk its own neighbours next, and put the advanced cursor back at the front
          found := next;
          visited := visited + {next.value};
          yielded := yielded + [next.value];
          FoundOrder(old(pendingNeighbors), all, neighbors, pos, next.value);
          pendingNeighbors := [Cursor(neighbors.node, pos)] + pendingNeighbors + [Cursor(next.value, 0)];
          break;
        }
      }
      WalkSound(ty, g, start, visited, pendingNeighbors, yielded);
      if found.None? {
        WalkComplete(ty, g, start, visited, yielded);
      } else {
        assert found.value in yielded;
      }
      r := found;
    }

    /** In any state of the walk: nothing is yielded twice, `start` is never yielded, everything yielded
        is an ancestor, and a walk from an existing node yields at most |nodes| - 1 items. */
    lemma YieldedSoundAndBounded()
      requires Valid()
      ensures Distinct(yielded) && start !in yielded
      ensures forall u :: u in yielded ==> u in AncestorSet(ty, g, start)
      ensures start < |g.nodes| ==> |yielded| <= |g.nodes| - 1
    {
      WalkSound(ty, g, start, visited, pendingNeighbors, yielded);
      if start < |g.nodes| {
        YieldBound(ty, g, start, visited, pendingNeighbors, yielded);
      }
    }
  }

  /** The test's use of the iterator: collect everything `ancestors(start)` yields into a set. */
  method CollectAncestors<N, E>(ty: Directedness, g: Graph<N, E>, start: nat) returns (s: set<nat>)
    requires WellFormed(g)
    ensures s == AncestorSet(ty, g, start)
  {
    var it := new Ancestors(ty, g, start);
    s := {};
    while true
      invariant it.Valid() && it.ty == ty && it.g == g && it.start == start
      invariant s == Elements(it.yielded)
      decreases |g.nodes| + 1 - |it.visited|
    {
      ghost var before := it.yielded;
      VisitedInRange(ty, g, start, it.visited, it.pendingNeighbors, it.yielded);
      var r := it.Next();
      if r.None? {
        return;
      }
      VisitedInRange(ty, g, start, it.visited, it.pendingNeighbors, it.yielded);
      ElementsSnoc(before, r.value);
      s := s + {r.value};
    }
  }

  // ---------------------------------------------------------------------------------------------
  // The crate's own test graph
  // ---------------------------------------------------------------------------------------------

  /** Nodes A, B, D, E, Z (indices 0 .. 4) and the edges A -> E, A -> Z, B -> D, B -> Z, E -> D. */
  function TestGraph(): (g: Graph<string, string>)
    ensures WellFormed(g) && |g.nodes| == 5
  {
    Graph(["A", "B", "D", "E", "Z"],
          [Edge(0, 3, ""), Edge(0, 4, ""), Edge(1, 2, ""), Edge(1, 4, ""), Edge(3, 2, "")])
  }

  /** A has no ancestors, so its walk yields nothing; Z's ancestors are exactly A and B. */
  lemma TestGraphAncestors()
    ensures AncestorSet(Directed, TestGraph(), 0) == {}
    ensures AncestorSet(Directed, TestGraph(), 4) == {0, 1}
  {
    var g := TestGraph();
    forall u
      ensures !BackEdge(Directed, g, 0, u)
    {
      assert forall i :: 0 <= i < |g.edges| ==> g.edges[i].target != 0;
    }
    ClosedHoldsReachable(Directed, g, 0, {0});
    forall v, u | v in {4, 0, 1} && BackEdge(Directed, g, v, u)
      ensures u in {4, 0, 1}
    {
      var i :| 0 <= i < |g.edges| && Joins(Directed, g.edges[i], v, u);
    }
    ClosedHoldsReachable(Directed, g, 4, {4, 0, 1});
    assert BackwardPath(Directed, g, [4, 0]) by {
      assert Joins(Directed, g.edges[1], 4, 0);
    }
    assert BackwardPath(Directed, g, [4, 1]) by {
      assert Joins(Directed, g.edges[3], 4, 1);
    }
    assert Reachable(Directed, g, 4, 0) && Reachable(Directed, g, 4, 1);
  }

  /** The crate's `test_ancestors`: the walk from A ends at once, and collecting the walk from Z gives
      {A, B}. */
  method TestAncestors() returns (fromA: Option<nat>, fromZ: set<nat>)
    ensures fromA == None && fromZ == {0, 1}
  {
    TestGraphAncestors();
    var it := new Ancestors(Directed, TestGraph(), 0);
    fromA := it.Next();
    fromZ := CollectAncestors(Directed, TestGraph(), 4);
  }
}
