/**
  The generator's emission order: every type after the types it needs complete, and among
  independent types the earliest in the file first.
 */
module EmissionOrder {
  import opened Graph
  import opened Embeds

  /** Declaration i is the one `index` finds under its name, and j has a member that needs it. */
  predicate Feeds(embeds: seq<Embed>, i: nat, j: nat) {
    && i < |embeds| && j < |embeds|
    && embeds[i].key in AllDeps(embeds[j].types)
    && forall k :: i < k < |embeds| ==> embeds[k].key != embeds[i].key
  }

  predicate FeedsCycle(embeds: seq<Embed>, p: seq<nat>) {
    && |p| >= 2 && p[0] == p[|p| - 1]
    && forall i :: 0 <= i < |p| - 1 ==> Feeds(embeds, p[i], p[i + 1])
  }

  /** A rearrangement of all declarations in which each comes after those that feed it. */
  predicate IsTopological(embeds: seq<Embed>, order: seq<nat>) {
    && |order| == |embeds| && Distinct(order)
    && InRange(embeds, order)
    && (forall k, i :: 0 <= k < |order| && 0 <= i < |embeds| && Feeds(embeds, i, order[k]) ==> i in order[..k])
  }

  predicate InRange(embeds: seq<Embed>, order: seq<nat>) {
    forall k :: 0 <= k < |order| ==> order[k] < |embeds|
  }

  function Picked(embeds: seq<Embed>, order: seq<nat>): (r: seq<Embed>)
    requires InRange(embeds, order)
    ensures |r| == |order|
  {
    seq(|order|, k requires 0 <= k < |order| => embeds[order[k]])
  }

  /** `std::pair` order on (decl_index, position). */
  predicate Before(embeds: seq<Embed>, i: nat, j: nat)
    requires i < |embeds| && j < |embeds|
  {
    embeds[i].declIndex < embeds[j].declIndex || (embeds[i].declIndex == embeds[j].declIndex && i <= j)
  }

  /** p is q, or comes first where they part. */
  ghost predicate LexLeast(embeds: seq<Embed>, p: seq<nat>, q: seq<nat>) {
    p == q || exists k :: 0 <= k < |p| && k < |q| && p[..k] == q[..k] && p[k] != q[k]
                          && p[k] < |embeds| && q[k] < |embeds| && Before(embeds, p[k], q[k])
  }

  // ----- building the graph -----

  function Positions(n: nat): (r: set<nat>)
    ensures forall i: nat :: i in r <==> i < n
    ensures |r| == n
  {
    if n == 0 then {} else Positions(n - 1) + {n - 1}
  }

  /** `index` after the first n declarations: a repeated name stands for its last holder. */
  predicate Indexed(index: map<string, nat>, embeds: seq<Embed>, n: nat)
    requires n <= |embeds|
  {
    && (forall i :: 0 <= i < n ==> embeds[i].key in index)
    && (forall k <- index :: index[k] < n && embeds[index[k]].key == k
                             && forall i :: index[k] < i < n ==> embeds[i].key != k)
  }

  ghost predicate FeedEdges(edges: seq<Edge<nat>>, embeds: seq<Embed>, n: nat) {
    forall i: nat, j: nat :: Edge(i, j) in edges <==> j < n && Feeds(embeds, i, j)
  }

  /** The edges into declaration j, each dependency once. */
  method AddDependencies(embeds: seq<Embed>, index: map<string, nat>, j: nat, nodes: set<nat>,
                         out0: map<nat, seq<nat>>, indeg0: map<nat, nat>, ghost edges0: seq<Edge<nat>>)
    returns (outgoing: map<nat, seq<nat>>, indeg: map<nat, nat>, ghost edges: seq<Edge<nat>>)
    requires j < |embeds| && Indexed(index, embeds, |embeds|) && nodes == Positions(|embeds|)
    requires Tabulates(nodes, edges0, out0, indeg0) && FeedEdges(edges0, embeds, j)
    ensures Tabulates(nodes, edges, outgoing, indeg) && FeedEdges(edges, embeds, j + 1)
  {
    hide Tabulates, AllDeps;
    outgoing, indeg, edges := out0, indeg0, edges0;
    var deps := AllDeps(embeds[j].types);
    var seen: set<string> := {};
    for k := 0 to |deps|
      invariant Tabulates(nodes, edges, outgoing, indeg)
      invariant forall d :: d in seen <==> d in deps[..k]
      invariant forall e :: e in edges <==>
        e in edges0 || (e.to == j && e.from < |embeds| && embeds[e.from].key in deps[..k] && embeds[e.from].key in index
                        && index[embeds[e.from].key] == e.from)
    {
      var d := deps[k];
      assert deps[..k + 1] == deps[..k] + [d];
      if d !in seen {
        seen := seen + {d};
        if d in index {
          TabulateEdge(nodes, edges, outgoing, indeg, index[d], j);
          outgoing := outgoing[index[d] := outgoing[index[d]] + [j]];
          indeg := indeg[j := indeg[j] + 1];
          edges := edges + [Edge(index[d], j)];
        }
      }
    }
    assert deps[..|deps|] == deps;
    forall i: nat | i < |embeds|
      ensures index[embeds[i].key] == i <==> forall k :: i < k < |embeds| ==> embeds[k].key != embeds[i].key
    {
      var last := index[embeds[i].key];
      assert last > i ==> embeds[last].key == embeds[i].key;
    }
  }

  // ----- the order it comes to -----

  lemma {:induction false} LeastReady(embeds: seq<Embed>, ready: set<nat>) returns (i: nat)
    requires ready != {} && forall j <- ready :: j < |embeds|
    ensures i in ready && forall j <- ready :: Before(embeds, i, j)
    decreases |ready|
  {
    var x :| x in ready;
    if ready == {x} {
      i := x;
    } else {
      var rest := ready - {x};
      assert ready == rest + {x};
      i := LeastReady(embeds, rest);
      if !Before(embeds, i, x) { i := x; }
    }
  }

  /** All of x's dependencies are in `emitted`. */
  predicate Free(edges: seq<Edge<nat>>, emitted: seq<nat>, x: nat) {
    forall e <- edges :: e.to == x ==> e.from in emitted
  }

  /** i comes before every other declaration that could have been emitted here. */
  ghost predicate LeastFree(embeds: seq<Embed>, edges: seq<Edge<nat>>, emitted: seq<nat>, i: nat) {
    forall x: nat :: x < |embeds| && i < |embeds| && x !in emitted && Free(edges, emitted, x) ==> Before(embeds, i, x)
  }

  ghost predicate Greedy(embeds: seq<Embed>, edges: seq<Edge<nat>>, order: seq<nat>) {
    forall k :: 0 <= k < |order| ==> LeastFree(embeds, edges, order[..k], order[k])
  }

  lemma ReadyIsLeastFree(embeds: seq<Embed>, edges: seq<Edge<nat>>, done: set<nat>, indeg: map<nat, nat>,
                         ready: set<nat>, order: seq<nat>, i: nat)
    requires Counting(Positions(|embeds|), edges, done, [], indeg, ready)
    requires forall n :: n in order <==> n in done
    requires i in ready && (forall j <- ready :: Before(embeds, i, j))
    ensures LeastFree(embeds, edges, order, i)
  {
    hide Positions, InDegree;
    forall x: nat | x < |embeds| && i < |embeds| && x !in order && Free(edges, order, x) ensures Before(embeds, i, x) {
      InDegreeZero(edges, done, x);
      assert Count([], x) == 0;
      assert x in Positions(|embeds|) && x in ready;
    }
  }

  lemma GreedyGrows(embeds: seq<Embed>, edges: seq<Edge<nat>>, order: seq<nat>, i: nat)
    requires Greedy(embeds, edges, order) && LeastFree(embeds, edges, order, i)
    ensures Greedy(embeds, edges, order + [i])
  {
    hide LeastFree;
    var longer := order + [i];
    forall k | 0 <= k < |longer| ensures LeastFree(embeds, edges, longer[..k], longer[k]) {
      assert longer[..k] == order[..k];
      if k == |order| { assert order[..k] == order; }
    }
  }

  lemma {:induction false} PartingPoint(p: seq<nat>, q: seq<nat>) returns (k: nat)
    requires |p| == |q| && p != q
    ensures k < |p| && p[..k] == q[..k] && p[k] != q[k]
    decreases |p|
  {
    if p[0] != q[0] {
      k := 0;
    } else {
      assert p == [p[0]] + p[1..] && q == [q[0]] + q[1..];
      k := PartingPoint(p[1..], q[1..]);
      assert p[..k + 1] == [p[0]] + p[1..][..k] && q[..k + 1] == [q[0]] + q[1..][..k];
      k := k + 1;
    }
  }

  /** Greedy picks make the least of all topological orders. */
  lemma GreedyIsLeast(embeds: seq<Embed>, edges: seq<Edge<nat>>, order: seq<nat>, q: seq<nat>)
    requires FeedEdges(edges, embeds, |embeds|) && Greedy(embeds, edges, order)
    requires |order| == |embeds| && InRange(embeds, order)
    requires IsTopological(embeds, q)
    ensures LexLeast(embeds, order, q)
  {
    if order != q {
      var k := PartingPoint(order, q);
      assert order[k] in order && q[k] in q;
      assert q[k] !in q[..k];
      forall e | e in edges && e.to == q[k] ensures e.from in order[..k] {
        assert e == Edge(e.from, q[k]);
        assert Feeds(embeds, e.from, q[k]);
      }
      assert Free(edges, order[..k], q[k]) && LeastFree(embeds, edges, order[..k], order[k]);
      assert Before(embeds, order[k], q[k]);
    }
  }

  function Swapped(order: seq<nat>, k: nat): seq<nat>
    requires k + 1 < |order|
  {
    order[k := order[k + 1]][k + 1 := order[k]]
  }

  lemma SwapKeepsTopological(embeds: seq<Embed>, order: seq<nat>, k: nat)
    requires IsTopological(embeds, order) && k + 1 < |order| && !Feeds(embeds, order[k], order[k + 1])
    ensures IsTopological(embeds, Swapped(order, k))
  {
    hide Feeds;
    var q := Swapped(order, k);
    forall m, i | 0 <= m < |q| && 0 <= i < |embeds| && Feeds(embeds, i, q[m]) ensures i in q[..m] {
      var was := if m == k then k + 1 else if m == k + 1 then k else m;
      assert q[m] == order[was] && i in order[..was];
      var at: nat :| at < was && order[at] == i;
      var now := if at == k then k + 1 else if at == k + 1 then k else at;
      assert q[now] == i && now < m;
    }
  }

  /**
    Of two declarations emitted one after the other, the first feeds the second, comes earlier in
    the file, or is listed earlier.
   */
  lemma EarlierFirst(embeds: seq<Embed>, order: seq<nat>, k: nat)
    requires IsTopological(embeds, order) && forall q :: IsTopological(embeds, q) ==> LexLeast(embeds, order, q)
    requires k + 1 < |order| && !Feeds(embeds, order[k], order[k + 1])
    ensures || embeds[order[k]].declIndex < embeds[order[k + 1]].declIndex
            || (embeds[order[k]].declIndex == embeds[order[k + 1]].declIndex && order[k] < order[k + 1])
  {
    hide Feeds;
    SwapKeepsTopological(embeds, order, k);
    var q := Swapped(order, k);
    assert LexLeast(embeds, order, q);
    assert order[k] != order[k + 1] && order[k] < |embeds| && order[k + 1] < |embeds|;
    assert order[..k] == q[..k];
  }

  lemma OrderIsTopological(embeds: seq<Embed>, edges: seq<Edge<nat>>, order: seq<nat>)
    requires FeedEdges(edges, embeds, |embeds|) && Distinct(order) && Ordered(edges, order)
    requires |order| == |embeds| && InRange(embeds, order)
    ensures IsTopological(embeds, order)
  {
    forall k, i | 0 <= k < |order| && 0 <= i < |embeds| && Feeds(embeds, i, order[k]) ensures i in order[..k] {
      assert order[k] in order;
      assert Edge(i, order[k]) in edges;
    }
  }

  lemma FeedCycles(embeds: seq<Embed>, edges: seq<Edge<nat>>)
    requires FeedEdges(edges, embeds, |embeds|)
    ensures Cyclic(edges) <==> exists p :: FeedsCycle(embeds, p)
  {
    if p: seq<nat> :| Cycle(edges, p) {
      forall i | 0 <= i < |p| - 1 ensures Feeds(embeds, p[i], p[i + 1]) {
        assert Edge(p[i], p[i + 1]) in edges;
      }
      assert FeedsCycle(embeds, p);
    }
    if p :| FeedsCycle(embeds, p) {
      forall i | 0 <= i < |p| - 1 ensures Edge(p[i], p[i + 1]) in edges {
        assert Feeds(embeds, p[i], p[i + 1]);
      }
      assert Cycle(edges, p);
    }
  }

  lemma DistinctCovers(order: seq<nat>, nodes: set<nat>)
    requires Distinct(order) && forall n :: n in order <==> n in nodes
    ensures |order| == |nodes|
    decreases |order|
  {
    if order == [] {
      assert nodes == {};
    } else {
      var last := order[|order| - 1];
      var rest := order[..|order| - 1];
      assert order == rest + [last];
      assert last in order;
      forall n ensures n in rest <==> n in nodes - {last} {
        assert n in order <==> n in rest || n == last;
      }
      DistinctCovers(rest, nodes - {last});
    }
  }

  /**
    Throws exactly when some declarations feed each other in a circle; otherwise emits every
    declaration once, after those that feed it, in the least such order.
   */
  method SortEmbeds(embeds: seq<Embed>) returns (ok: bool, out: seq<Embed>, ghost order: seq<nat>)
    ensures ok <==> !exists p :: FeedsCycle(embeds, p)
    ensures ok ==> IsTopological(embeds, order) && out == Picked(embeds, order)
    ensures ok ==> forall q :: IsTopological(embeds, q) ==> LexLeast(embeds, order, q)
  {
    hide AllDeps, Feeds, Tabulates, Outgoing, InDegree, Cyclic, LexLeast, Greedy, Distinct, Ordered;
    var n := |embeds|;
    var index: map<string, nat> := map[];
    for i := 0 to n
      invariant Indexed(index, embeds, i)
    {
      index := index[embeds[i].key := i];
    }
    ghost var edges;
    var outgoing, indeg;
    outgoing, indeg, edges := BuildGraph(embeds, index);
    ok, out, order := Drain(embeds, edges, outgoing, indeg);
    FeedCycles(embeds, edges);
    if ok {
      OrderIsTopological(embeds, edges, order);
      forall q | IsTopological(embeds, q) ensures LexLeast(embeds, order, q) {
        GreedyIsLeast(embeds, edges, order, q);
      }
    }
  }

  method BuildGraph(embeds: seq<Embed>, index: map<string, nat>)
    returns (outgoing: map<nat, seq<nat>>, indeg: map<nat, nat>, ghost edges: seq<Edge<nat>>)
    requires Indexed(index, embeds, |embeds|)
    ensures Tabulates(Positions(|embeds|), edges, outgoing, indeg) && FeedEdges(edges, embeds, |embeds|)
  {
    var nodes := Positions(|embeds|);
    outgoing, indeg, edges := map i | i in nodes :: [], map i | i in nodes :: 0, [];
    for j := 0 to |embeds|
      invariant Tabulates(nodes, edges, outgoing, indeg) && FeedEdges(edges, embeds, j)
    {
      outgoing, indeg, edges := AddDependencies(embeds, index, j, nodes, outgoing, indeg, edges);
    }
  }

  /** What has been emitted: an ordered, greedy list of exactly the done declarations. */
  ghost predicate Emitting(embeds: seq<Embed>, edges: seq<Edge<nat>>, done: set<nat>, order: seq<nat>) {
    && (forall n :: n in order <==> n in done)
    && Distinct(order) && Ordered(edges, order) && Greedy(embeds, edges, order) && InRange(embeds, order)
  }

  lemma EmitOne(embeds: seq<Embed>, edges: seq<Edge<nat>>, done: set<nat>, indeg: map<nat, nat>, ready: set<nat>,
                order: seq<nat>, i: nat)
    requires Counting(Positions(|embeds|), edges, done, [], indeg, ready) && Emitting(embeds, edges, done, order)
    requires i in ready && forall j <- ready :: Before(embeds, i, j)
    ensures Counting(Positions(|embeds|), edges, done + {i}, Outgoing(edges, i), indeg, ready - {i})
    ensures Emitting(embeds, edges, done + {i}, order + [i]) && InRange(embeds, order + [i])
    ensures i in Positions(|embeds|) - done
  {
    hide Counting, Greedy, InDegree, Outgoing, Distinct, Ordered, Positions, Before;
    TakeReady(Positions(|embeds|), edges, done, indeg, ready, i);
    OrderGrows(edges, order, i);
    ReadyIsLeastFree(embeds, edges, done, indeg, ready, order, i);
    GreedyGrows(embeds, edges, order, i);
  }

  lemma EmitEnds(embeds: seq<Embed>, edges: seq<Edge<nat>>, done: set<nat>, indeg: map<nat, nat>, order: seq<nat>)
    requires Counting(Positions(|embeds|), edges, done, [], indeg, {}) && Emitting(embeds, edges, done, order)
    ensures |order| == |embeds| <==> !Cyclic(edges)
    ensures InRange(embeds, order) && Distinct(order) && Ordered(edges, order) && Greedy(embeds, edges, order)
  {
    var nodes := Positions(|embeds|);
    SubsetSize(done, nodes);
    DistinctCovers(order, done);
    if done == nodes {
      OrderedIsAcyclic(edges, order);
    } else {
      StuckIsCyclic(nodes, edges, done, indeg);
    }
  }

  lemma ReadyInRange(embeds: seq<Embed>, edges: seq<Edge<nat>>, done: set<nat>, indeg: map<nat, nat>, ready: set<nat>)
    requires Counting(Positions(|embeds|), edges, done, [], indeg, ready)
    ensures forall j <- ready :: j < |embeds|
  {
  }

  /** Emits the least ready declaration until none is ready. */
  method Drain(embeds: seq<Embed>, ghost edges: seq<Edge<nat>>, outgoing: map<nat, seq<nat>>, counts: map<nat, nat>)
    returns (ok: bool, out: seq<Embed>, ghost order: seq<nat>)
    requires Tabulates(Positions(|embeds|), edges, outgoing, counts)
    ensures ok <==> !Cyclic(edges)
    ensures InRange(embeds, order) && out == Picked(embeds, order)
    ensures ok ==> |order| == |embeds| && Distinct(order) && Ordered(edges, order) && Greedy(embeds, edges, order)
  {
    hide Counting, Greedy, InDegree, Outgoing, Distinct, Ordered, Cyclic, Positions, Emitting, Tabulates, Picked, Before, Count;
    var nodes := Positions(|embeds|);
    TabulatedKeys(nodes, edges, outgoing, counts);
    var indeg: map<nat, nat> := counts;
    var ready: set<nat> := set n | n in nodes && indeg[n] == 0;
    ghost var done: set<nat> := {};
    out, order := [], [];
    CountingStarts(nodes, edges, outgoing, indeg, ready);
    NothingEmitted(embeds, edges);
    while ready != {}
      invariant Counting(nodes, edges, done, [], indeg, ready)
      invariant Emitting(embeds, edges, done, order)
      invariant InRange(embeds, order) && out == Picked(embeds, order)
      decreases |nodes - done|
    {
      ReadyInRange(embeds, edges, done, indeg, ready);
      ghost var least := LeastReady(embeds, ready);
      var i :| i in ready && forall j <- ready :: Before(embeds, i, j);
      EmitOne(embeds, edges, done, indeg, ready, order, i);
      assert nodes - (done + {i}) < nodes - done;
      SubsetSize(nodes - (done + {i}), nodes - done);
      PickedGrows(embeds, order, i);
      ready := ready - {i};
      out := out + [embeds[i]];
      done, order := done + {i}, order + [i];
      indeg, ready := Release(nodes, edges, done, outgoing[i], indeg, ready);
    }
    EmitEnds(embeds, edges, done, indeg, order);
    ok := |out| == |embeds|;
  }

  lemma PickedGrows(embeds: seq<Embed>, order: seq<nat>, i: nat)
    requires InRange(embeds, order) && i < |embeds|
    ensures InRange(embeds, order + [i]) && Picked(embeds, order + [i]) == Picked(embeds, order) + [embeds[i]]
  {
  }

  lemma NothingEmitted(embeds: seq<Embed>, edges: seq<Edge<nat>>)
    ensures Emitting(embeds, edges, {}, []) && Picked(embeds, []) == []
  {
  }
}
