/**
  The parser's by-value cycle check: Kahn's algorithm over generated names, one counted edge
  per mention.
 */
module CycleCheck {
  import opened Ast
  import opened Graph
  import opened Embeds

  /** The edges of the mentions seen so far: from the type needed to the type that needs it. */
  ghost predicate Mentions(edges: seq<Edge<string>>, local: set<string>, embeds: seq<Embed>) {
    forall a, b :: Edge(a, b) in edges <==> a in local && exists e :: e in embeds && e.key == b && a in AllDeps(e.types)
  }

  /** Counts the mentions in one member type of `owner`. */
  method AddOwner(local: set<string>, owner: string, t: TypeSpec,
                  out0: map<string, seq<string>>, indeg0: map<string, nat>, ghost edges0: seq<Edge<string>>)
    returns (outgoing: map<string, seq<string>>, indeg: map<string, nat>, ghost edges: seq<Edge<string>>)
    requires owner in local && Tabulates(local, edges0, out0, indeg0)
    ensures Tabulates(local, edges, outgoing, indeg)
    ensures forall e :: e in edges <==> e in edges0 || (e.to == owner && e.from in local && e.from in CompleteTypeDeps(t))
  {
    hide Tabulates, CompleteTypeDeps;
    outgoing, indeg, edges := out0, indeg0, edges0;
    var deps := CompleteTypeDeps(t);
    var seen: set<string> := {};
    for k := 0 to |deps|
      invariant Tabulates(local, edges, outgoing, indeg)
      invariant seen == set d | d in deps[..k] && d in local
      invariant forall e :: e in edges <==> e in edges0 || (e.to == owner && e.from in local && e.from in deps[..k])
    {
      var d := deps[k];
      assert deps[..k + 1] == deps[..k] + [d];
      if d in local && d !in seen {
        seen := seen + {d};
        TabulateEdge(local, edges, outgoing, indeg, d, owner);
        outgoing := outgoing[d := outgoing[d] + [owner]];
        indeg := indeg[owner := indeg[owner] + 1];
        edges := edges + [Edge(d, owner)];
      }
    }
    assert deps[..|deps|] == deps;
  }

  lemma {:induction false} AllDepsAppend(types: seq<TypeSpec>, t: TypeSpec)
    ensures AllDeps(types + [t]) == AllDeps(types) + CompleteTypeDeps(t)
  {
    if types == [] {
      assert types + [t] == [t] && [t][1..] == [];
    } else {
      assert (types + [t])[1..] == types[1..] + [t];
      AllDepsAppend(types[1..], t);
    }
  }

  lemma NoDeps()
    ensures AllDeps([]) == []
  {
  }

  /** Every mention of one declaration. */
  method AddEmbed(local: set<string>, ghost before: seq<Embed>, e: Embed,
                  out0: map<string, seq<string>>, indeg0: map<string, nat>, ghost edges0: seq<Edge<string>>)
    returns (outgoing: map<string, seq<string>>, indeg: map<string, nat>, ghost edges: seq<Edge<string>>)
    requires e.key in local && Tabulates(local, edges0, out0, indeg0) && Mentions(edges0, local, before)
    ensures Tabulates(local, edges, outgoing, indeg) && Mentions(edges, local, before + [e])
  {
    hide Tabulates, AllDeps, CompleteTypeDeps, Mentions;
    outgoing, indeg, edges := out0, indeg0, edges0;
    NoDeps();
    for k := 0 to |e.types|
      invariant Tabulates(local, edges, outgoing, indeg)
      invariant forall x :: x in edges <==>
        x in edges0 || (x.to == e.key && x.from in local && x.from in AllDeps(e.types[..k]))
    {
      assert e.types[..k + 1] == e.types[..k] + [e.types[k]];
      AllDepsAppend(e.types[..k], e.types[k]);
      outgoing, indeg, edges := AddOwner(local, e.key, e.types[k], outgoing, indeg, edges);
    }
    assert e.types[..|e.types|] == e.types;
    MentionsGrow(edges0, edges, local, before, e);
  }

  lemma MentionsGrow(edges0: seq<Edge<string>>, edges: seq<Edge<string>>, local: set<string>, before: seq<Embed>, e: Embed)
    requires Mentions(edges0, local, before)
    requires forall x :: x in edges <==> x in edges0 || (x.to == e.key && x.from in local && x.from in AllDeps(e.types))
    ensures Mentions(edges, local, before + [e])
  {
    hide AllDeps;
    forall a, b
      ensures Edge(a, b) in edges <==>
        a in local && exists x :: x in before + [e] && x.key == b && a in AllDeps(x.types)
    {
      if Edge(a, b) in edges {
        if Edge(a, b) in edges0 {
          var x :| x in before && x.key == b && a in AllDeps(x.types);
          assert x in before + [e];
        } else {
          assert e in before + [e];
        }
      }
      if x :| x in before + [e] && x.key == b && a in AllDeps(x.types) && a in local {
        assert x in before || x == e;
      }
    }
  }

  /** The edges are the `Needs` relation turned around, so their cycles are the by-value cycles. */
  lemma MentionCycles(edges: seq<Edge<string>>, local: set<string>, embeds: seq<Embed>)
    requires Mentions(edges, local, embeds)
    requires forall k :: k in local <==> Declared(embeds, k)
    ensures Cyclic(edges) <==> ByValueCycle(embeds)
  {
    forall a, b ensures Edge(a, b) in edges <==> Needs(embeds, b, a) {
    }
    if Cyclic(edges) {
      var p :| Cycle(edges, p);
      forall i | 0 <= i < |p| - 1 ensures Needs(embeds, p[i + 1], p[i]) {
        assert Edge(p[i], p[i + 1]) in edges;
      }
      assert NeedsCycle(embeds, p);
    }
    if ByValueCycle(embeds) {
      var p :| NeedsCycle(embeds, p);
      assert Cycle(edges, p);
    }
  }

  method LocalNames(embeds: seq<Embed>) returns (local: set<string>)
    ensures forall k :: k in local <==> Declared(embeds, k)
  {
    local := {};
    for i := 0 to |embeds|
      invariant forall k :: k in local <==> Declared(embeds[..i], k)
    {
      assert embeds[..i + 1] == embeds[..i] + [embeds[i]];
      forall k ensures Declared(embeds[..i + 1], k) <==> k in local || k == embeds[i].key {
        if k == embeds[i].key { assert embeds[i] in embeds[..i + 1]; }
        if k in local {
          var e :| e in embeds[..i] && e.key == k;
          assert e in embeds[..i + 1];
        }
      }
      local := local + {embeds[i].key};
    }
    assert embeds[..|embeds|] == embeds;
  }

  lemma NothingTabulated(local: set<string>, outgoing: map<string, seq<string>>, indeg: map<string, nat>)
    requires outgoing == (map k | k in local :: []) && indeg == (map k | k in local :: 0)
    ensures Tabulates(local, [], outgoing, indeg)
  {
  }

  /** Accepts a module exactly when no struct or union contains itself by value. */
  method CheckCompleteTypeAcyclic(m: Module) returns (ok: bool)
    ensures ok <==> !ByValueCycle(GeneratorOrder(m))
  {
    hide ByValueCycle, Cyclic, Tabulates, AllDeps, Outgoing, InDegree, ParserOrder, GeneratorOrder;
    var embeds := ParserOrder(m);
    var local := LocalNames(embeds);
    var outgoing: map<string, seq<string>> := map k | k in local :: [];
    var indeg: map<string, nat> := map k | k in local :: 0;
    ghost var edges := [];
    NothingTabulated(local, outgoing, indeg);
    for i := 0 to |embeds|
      invariant Tabulates(local, edges, outgoing, indeg) && Mentions(edges, local, embeds[..i])
    {
      assert embeds[i] in embeds && Declared(embeds, embeds[i].key);
      assert embeds[..i + 1] == embeds[..i] + [embeds[i]];
      outgoing, indeg, edges := AddEmbed(local, embeds[..i], embeds[i], outgoing, indeg, edges);
    }
    var seen := CountOrdered(local, edges, outgoing, indeg);
    MentionCycles(edges, local, embeds);
    OrdersSame(m);
    CycleDependsOnMembers(embeds, GeneratorOrder(m));
    ok := seen == |local|;
  }

  /** Takes ready names until none is left; a cycle keeps the count short of the total. */
  method CountOrdered(local: set<string>, ghost edges: seq<Edge<string>>, outgoing: map<string, seq<string>>,
                      counts: map<string, nat>)
    returns (seen: nat)
    requires Tabulates(local, edges, outgoing, counts)
    ensures seen == |local| <==> !Cyclic(edges)
  {
    hide Counting, InDegree, Outgoing, Distinct, Ordered, Cyclic, Tabulates, Counted;
    TabulatedKeys(local, edges, outgoing, counts);
    var indeg := counts;
    var ready := set n | n in local && indeg[n] == 0;
    seen := 0;
    ghost var done: set<string>, order: seq<string> := {}, [];
    CountingStarts(local, edges, outgoing, indeg, ready);
    NoneCounted(edges);
    while ready != {}
      invariant Counting(local, edges, done, [], indeg, ready) && Counted(edges, done, order)
      invariant seen == |done|
      decreases |local - done|
    {
      var n :| n in ready;
      CountOne(local, edges, done, indeg, ready, order, n);
      ready := ready - {n};
      seen := seen + 1;
      done, order := done + {n}, order + [n];
      indeg, ready := Release(local, edges, done, outgoing[n], indeg, ready);
    }
    CountEnds(local, edges, done, indeg, order);
  }

  /** The names counted so far, in an order that respects the edges. */
  ghost predicate Counted(edges: seq<Edge<string>>, done: set<string>, order: seq<string>) {
    Distinct(order) && Ordered(edges, order) && forall n :: n in order <==> n in done
  }

  lemma NoneCounted(edges: seq<Edge<string>>)
    ensures Counted(edges, {}, [])
  {
  }

  lemma CountOne(local: set<string>, edges: seq<Edge<string>>, done: set<string>, indeg: map<string, nat>,
                 ready: set<string>, order: seq<string>, n: string)
    requires Counting(local, edges, done, [], indeg, ready) && Counted(edges, done, order) && n in ready
    ensures Counting(local, edges, done + {n}, Outgoing(edges, n), indeg, ready - {n})
    ensures Counted(edges, done + {n}, order + [n])
    ensures n in local - done && |local - (done + {n})| < |local - done|
  {
    hide Counting, InDegree, Outgoing, Distinct, Ordered;
    TakeReady(local, edges, done, indeg, ready, n);
    OrderGrows(edges, order, n);
    assert local - (done + {n}) == (local - done) - {n};
  }

  lemma CountEnds(local: set<string>, edges: seq<Edge<string>>, done: set<string>, indeg: map<string, nat>,
                  order: seq<string>)
    requires Counting(local, edges, done, [], indeg, {}) && Counted(edges, done, order)
    ensures |done| == |local| <==> !Cyclic(edges)
  {
    hide InDegree, Distinct, Ordered, Cyclic;
    SubsetSize(done, local);
    if done == local {
      OrderedIsAcyclic(edges, order);
    } else {
      StuckIsCyclic(local, edges, done, indeg);
    }
  }
}
