/**
  Directed multigraphs as edge lists, cycles, topological orders, and the bookkeeping both
  topological sorts of the compiler share.
 */
module Graph {

  datatype Edge<T> = Edge(from: T, to: T)

  // ----- cycles -----

  /** A walk along edges; a cycle is one that comes back to where it started. */
  predicate Walk<T(==)>(edges: seq<Edge<T>>, p: seq<T>) {
    forall i :: 0 <= i < |p| - 1 ==> Edge(p[i], p[i + 1]) in edges
  }

  predicate Cycle<T(==)>(edges: seq<Edge<T>>, p: seq<T>) {
    |p| >= 2 && p[0] == p[|p| - 1] && Walk(edges, p)
  }

  ghost predicate Cyclic<T(!new)>(edges: seq<Edge<T>>) {
    exists p :: Cycle(edges, p)
  }

  ghost predicate HasPredecessor<T(!new)>(edges: seq<Edge<T>>, left: set<T>, j: T) {
    exists i :: i in left && Edge(i, j) in edges
  }

  /** Everything in `left` has a predecessor in `left`: what a stalled topological sort leaves. */
  ghost predicate Stalled<T(!new)>(edges: seq<Edge<T>>, left: set<T>) {
    left != {} && forall j <- left :: HasPredecessor(edges, left, j)
  }

  lemma Predecessor<T(!new)>(edges: seq<Edge<T>>, left: set<T>, j: T) returns (i: T)
    requires Stalled(edges, left) && j in left
    ensures i in left && Edge(i, j) in edges
  {
    assert HasPredecessor(edges, left, j);
    i :| i in left && Edge(i, j) in edges;
  }

  /** A walk of any length inside a stalled set, built backwards. */
  lemma {:induction false} StalledWalk<T(!new)>(edges: seq<Edge<T>>, left: set<T>, n: nat) returns (p: seq<T>)
    requires Stalled(edges, left)
    ensures |p| == n + 1 && Walk(edges, p) && forall x <- p :: x in left
  {
    assert left != {};
    hide Stalled;
    if n == 0 {
      var j :| j in left;
      p := [j];
    } else {
      var q := StalledWalk(edges, left, n - 1);
      var i := Predecessor(edges, left, q[0]);
      p := [i] + q;
      forall k | 0 <= k < |p| - 1 ensures Edge(p[k], p[k + 1]) in edges {
        if k > 0 { assert p[k] == q[k - 1] && p[k + 1] == q[k]; }
      }
    }
  }

  /** A sequence longer than the set its elements come from repeats one of them. */
  lemma {:induction false} Pigeonhole<T>(p: seq<T>, pool: set<T>) returns (i: nat, j: nat)
    requires |p| > |pool| && forall x <- p :: x in pool
    ensures i < j < |p| && p[i] == p[j]
  {
    var last := p[|p| - 1];
    if last in p[..|p| - 1] {
      i :| 0 <= i < |p| - 1 && p[i] == last;
      j := |p| - 1;
    } else {
      i, j := Pigeonhole(p[..|p| - 1], pool - {last});
    }
  }

  lemma StalledIsCyclic<T(!new)>(edges: seq<Edge<T>>, left: set<T>)
    requires Stalled(edges, left)
    ensures Cyclic(edges)
  {
    hide Stalled;
    var p := StalledWalk(edges, left, |left|);
    var i, j := Pigeonhole(p, left);
    var c := p[i..j + 1];
    forall k | 0 <= k < |c| - 1 ensures Edge(c[k], c[k + 1]) in edges {
      assert Edge(p[i + k], p[i + k + 1]) in edges;
    }
    assert Cycle(edges, c);
  }

  // ----- topological orders -----

  predicate Distinct<T(==)>(p: seq<T>) {
    forall i, j :: 0 <= i < j < |p| ==> p[i] != p[j]
  }

  /** Every edge into an element of p comes from an earlier element. */
  predicate Ordered<T(==)>(edges: seq<Edge<T>>, p: seq<T>) {
    forall e, k :: e in edges && 0 <= k < |p| && p[k] == e.to ==> e.from in p[..k]
  }

  /** Along a walk inside an ordered list, positions grow. */
  lemma {:induction false} WalkClimbs<T>(edges: seq<Edge<T>>, order: seq<T>, w: seq<T>, at: nat) returns (start: nat)
    requires Distinct(order) && Ordered(edges, order) && Walk(edges, w) && w != []
    requires at < |order| && order[at] == w[|w| - 1]
    ensures start < |order| && order[start] == w[0] && (|w| >= 2 ==> start < at)
    decreases |w|
  {
    if |w| == 1 {
      start := at;
    } else {
      var before := w[..|w| - 1];
      assert Edge(w[|w| - 2], w[|w| - 1]) in edges;
      assert w[|w| - 2] in order[..at];
      var k :| 0 <= k < at && order[k] == w[|w| - 2];
      start := WalkClimbs(edges, order, before, k);
    }
  }

  lemma OrderedIsAcyclic<T(!new)>(edges: seq<Edge<T>>, order: seq<T>)
    requires Distinct(order) && Ordered(edges, order)
    requires forall e <- edges :: e.to in order
    ensures !Cyclic(edges)
  {
    forall c | Cycle(edges, c) ensures false {
      assert Edge(c[|c| - 2], c[|c| - 1]) in edges;
      var at :| 0 <= at < |order| && order[at] == c[|c| - 1];
      var start := WalkClimbs(edges, order, c, at);
    }
  }

  // ----- the counters of Kahn's algorithm -----

  /** How many edges reach j from outside `done`. */
  function InDegree<T(==)>(edges: seq<Edge<T>>, done: set<T>, j: T): nat {
    if edges == [] then 0
    else (if edges[0].to == j && edges[0].from !in done then 1 else 0) + InDegree(edges[1..], done, j)
  }

  /** The targets of i's edges, once per edge. */
  function Outgoing<T(==)>(edges: seq<Edge<T>>, i: T): seq<T> {
    if edges == [] then []
    else (if edges[0].from == i then [edges[0].to] else []) + Outgoing(edges[1..], i)
  }

  function Count<T(==)>(xs: seq<T>, x: T): nat {
    if xs == [] then 0 else (if xs[0] == x then 1 else 0) + Count(xs[1..], x)
  }

  lemma {:induction false} InDegreeZero<T>(edges: seq<Edge<T>>, done: set<T>, j: T)
    ensures InDegree(edges, done, j) == 0 <==> forall e <- edges :: e.to == j ==> e.from in done
  {
    if edges != [] {
      InDegreeZero(edges[1..], done, j);
      assert edges[0] in edges;
    }
  }

  lemma {:induction false} InDegreeDrops<T>(edges: seq<Edge<T>>, done: set<T>, i: T, j: T)
    requires i !in done
    ensures InDegree(edges, done, j) == InDegree(edges, done + {i}, j) + Count(Outgoing(edges, i), j)
  {
    if edges != [] {
      InDegreeDrops(edges[1..], done, i, j);
      if edges[0].from == i {
        assert Outgoing(edges, i)[1..] == Outgoing(edges[1..], i);
      } else {
        assert Outgoing(edges, i) == Outgoing(edges[1..], i);
      }
    }
  }

  lemma {:induction false} OutgoingEdges<T>(edges: seq<Edge<T>>, i: T)
    ensures forall j :: j in Outgoing(edges, i) <==> Edge(i, j) in edges
  {
    if edges != [] {
      OutgoingEdges(edges[1..], i);
      forall j ensures j in Outgoing(edges, i) <==> Edge(i, j) in edges {
        assert Edge(i, j) in edges <==> edges[0] == Edge(i, j) || Edge(i, j) in edges[1..];
      }
    }
  }

  /** What both sorts keep while nodes are taken: the counters, and who is ready. */
  ghost predicate Counting<T(!new)>(nodes: set<T>, edges: seq<Edge<T>>, done: set<T>, pending: seq<T>,
                                    indeg: map<T, nat>, ready: set<T>)
  {
    && done <= nodes && indeg.Keys == nodes
    && (forall e <- edges :: e.from in nodes && e.to in nodes)
    && (forall e <- edges :: e.to in done ==> e.from in done)
    && (forall j <- nodes :: indeg[j] == InDegree(edges, done, j) + Count(pending, j))
    && (forall j <- pending :: j in nodes - done)
    && (forall j :: j in ready <==> j in nodes - done && indeg[j] == 0)
  }

  /** Taking a ready node opens its edges for counting down. */
  lemma TakeReady<T(!new)>(nodes: set<T>, edges: seq<Edge<T>>, done: set<T>, indeg: map<T, nat>, ready: set<T>, i: T)
    requires Counting(nodes, edges, done, [], indeg, ready) && i in ready
    ensures i in nodes - done
    ensures Counting(nodes, edges, done + {i}, Outgoing(edges, i), indeg, ready - {i})
    ensures forall e <- edges :: e.to == i ==> e.from in done
  {
    InDegreeZero(edges, done, i);
    OutgoingEdges(edges, i);
    forall j | j in nodes ensures indeg[j] == InDegree(edges, done + {i}, j) + Count(Outgoing(edges, i), j) {
      InDegreeDrops(edges, done, i, j);
    }
    forall j | j in Outgoing(edges, i) ensures j in nodes - (done + {i}) {
      assert Edge(i, j) in edges;
    }
  }

  /** One `if (--indeg[j] == 0) ready.insert(j)`. */
  lemma CountDown<T(!new)>(nodes: set<T>, edges: seq<Edge<T>>, done: set<T>, pending: seq<T>,
                           indeg: map<T, nat>, ready: set<T>)
    requires Counting(nodes, edges, done, pending, indeg, ready) && pending != []
    ensures pending[0] in nodes && indeg[pending[0]] > 0
    ensures var j := pending[0];
            var lower := indeg[j := indeg[j] - 1];
            Counting(nodes, edges, done, pending[1..], lower, if lower[j] == 0 then ready + {j} else ready)
  {
    assert pending[0] in pending;
  }

  /** When nothing is ready, either all is done or what is left holds a cycle. */
  lemma StuckIsCyclic<T(!new)>(nodes: set<T>, edges: seq<Edge<T>>, done: set<T>, indeg: map<T, nat>)
    requires Counting(nodes, edges, done, [], indeg, {}) && done != nodes
    ensures Cyclic(edges)
  {
    var left := nodes - done;
    forall j | j in left ensures HasPredecessor(edges, left, j) {
      InDegreeZero(edges, done, j);
      assert indeg[j] != 0;
      var e :| e in edges && e.to == j && e.from !in done;
      assert e == Edge(e.from, j) && e.from in left;
    }
    StalledIsCyclic(edges, left);
  }

  // ----- appending an edge -----

  lemma {:induction false} InDegreeAppend<T>(edges: seq<Edge<T>>, e: Edge<T>, done: set<T>, j: T)
    ensures InDegree(edges + [e], done, j) ==
            InDegree(edges, done, j) + if e.to == j && e.from !in done then 1 else 0
  {
    if edges == [] {
      assert edges + [e] == [e] && [e][1..] == [];
    } else {
      assert (edges + [e])[1..] == edges[1..] + [e];
      InDegreeAppend(edges[1..], e, done, j);
    }
  }

  lemma {:induction false} OutgoingAppend<T>(edges: seq<Edge<T>>, e: Edge<T>, i: T)
    ensures Outgoing(edges + [e], i) == Outgoing(edges, i) + if e.from == i then [e.to] else []
  {
    if edges == [] {
      assert edges + [e] == [e] && [e][1..] == [];
    } else {
      assert (edges + [e])[1..] == edges[1..] + [e];
      OutgoingAppend(edges[1..], e, i);
    }
  }

  /** The adjacency lists and counters stand for this edge list. */
  ghost predicate Tabulates<T(!new)>(nodes: set<T>, edges: seq<Edge<T>>, outgoing: map<T, seq<T>>, indeg: map<T, nat>) {
    && outgoing.Keys == nodes && indeg.Keys == nodes
    && (forall e <- edges :: e.from in nodes && e.to in nodes)
    && (forall i <- nodes :: outgoing[i] == Outgoing(edges, i) && indeg[i] == InDegree(edges, {}, i))
  }

  lemma TabulatedKeys<T(!new)>(nodes: set<T>, edges: seq<Edge<T>>, outgoing: map<T, seq<T>>, indeg: map<T, nat>)
    requires Tabulates(nodes, edges, outgoing, indeg)
    ensures outgoing.Keys == nodes && indeg.Keys == nodes
    ensures forall i <- nodes :: outgoing[i] == Outgoing(edges, i)
  {
  }

  lemma TabulateEdge<T(!new)>(nodes: set<T>, edges: seq<Edge<T>>, outgoing: map<T, seq<T>>, indeg: map<T, nat>,
                              from: T, to: T)
    requires Tabulates(nodes, edges, outgoing, indeg) && from in nodes && to in nodes
    ensures from in outgoing && to in indeg
    ensures Tabulates(nodes, edges + [Edge(from, to)], outgoing[from := outgoing[from] + [to]],
                      indeg[to := indeg[to] + 1])
  {
    forall i | i in nodes
      ensures Outgoing(edges + [Edge(from, to)], i) == Outgoing(edges, i) + (if from == i then [to] else [])
      ensures InDegree(edges + [Edge(from, to)], {}, i) == InDegree(edges, {}, i) + if to == i then 1 else 0
    {
      OutgoingAppend(edges, Edge(from, to), i);
      InDegreeAppend(edges, Edge(from, to), {}, i);
    }
  }

  /** Before anything is taken, the nodes without incoming edges are ready. */
  lemma CountingStarts<T(!new)>(nodes: set<T>, edges: seq<Edge<T>>, outgoing: map<T, seq<T>>, indeg: map<T, nat>,
                                ready: set<T>)
    requires Tabulates(nodes, edges, outgoing, indeg)
    requires forall j :: j in ready <==> j in nodes && indeg[j] == 0
    ensures Counting(nodes, edges, {}, [], indeg, ready)
  {
  }

  lemma OrderGrows<T>(edges: seq<Edge<T>>, order: seq<T>, i: T)
    requires Distinct(order) && Ordered(edges, order) && i !in order
    requires forall e <- edges :: e.to == i ==> e.from in order
    ensures Distinct(order + [i]) && Ordered(edges, order + [i])
  {
    var longer := order + [i];
    forall e, k | e in edges && 0 <= k < |longer| && longer[k] == e.to ensures e.from in longer[..k] {
      assert longer[..k] == order[..k];
      if k == |order| { assert order[..k] == order; }
    }
  }

  lemma SubsetSize<T>(a: set<T>, b: set<T>)
    requires a <= b
    ensures |a| <= |b| && (|a| == |b| <==> a == b)
  {
    assert b == a + (b - a);
    if |b - a| == 0 { assert b - a == {}; }
  }

  /** The inner loop of both sorts: count down every edge out of the node just taken. */
  method Release<T(==,!new)>(nodes: set<T>, ghost edges: seq<Edge<T>>, ghost done: set<T>, targets: seq<T>,
                             counts: map<T, nat>, waiting: set<T>)
    returns (indeg: map<T, nat>, ready: set<T>)
    requires Counting(nodes, edges, done, targets, counts, waiting)
    ensures Counting(nodes, edges, done, [], indeg, ready)
  {
    indeg, ready := counts, waiting;
    assert targets[0..] == targets;
    for k := 0 to |targets|
      invariant Counting(nodes, edges, done, targets[k..], indeg, ready)
    {
      CountDown(nodes, edges, done, targets[k..], indeg, ready);
      assert targets[k..][1..] == targets[k + 1..];
      var j := targets[k];
      indeg := indeg[j := indeg[j] - 1];
      if indeg[j] == 0 {
        ready := ready + {j};
      }
    }
    assert targets[|targets|..] == [];
  }
}
