/**
  `[EnableIf]` filtering, and the agreement of the parser's cycle check with the generator's
  sort before and after it.
 */
module Filtering {
  import opened Ast
  import opened Embeds
  import CycleCheck
  import EmissionOrder

  // ----- filtering -----

  predicate ClauseMatches(clause: EnableIfClause, enabled: set<string>, negate: bool) {
    match clause.mode
    case NoClause => true
    case AnyOf =>
      var hit := exists f <- clause.flags :: f in enabled;
      if negate then !hit else hit
    case AllOf =>
      var hit := clause.flags != [] && forall f <- clause.flags :: f in enabled;
      if negate then !hit else hit
  }

  predicate IsDeclEnabled(spec: EnableIf, enabled: set<string>) {
    ClauseMatches(spec.enableIf, enabled, false) && ClauseMatches(spec.enableIfNot, enabled, true)
  }

  function EraseDisabled<T>(v: seq<T>, spec: T -> EnableIf, enabled: set<string>): seq<T> {
    if v == [] then []
    else (if IsDeclEnabled(spec(v[0]), enabled) then [v[0]] else []) + EraseDisabled(v[1..], spec, enabled)
  }

  function FilterEnum(e: EnumDecl, enabled: set<string>): EnumDecl {
    e.(values := EraseDisabled(e.values, (v: EnumValue) => v.enableIf, enabled))
  }

  function FilterEnums(enums: seq<EnumDecl>, enabled: set<string>): seq<EnumDecl> {
    if enums == [] then [] else [FilterEnum(enums[0], enabled)] + FilterEnums(enums[1..], enabled)
  }

  function FilterStruct(s: StructDecl, enabled: set<string>): StructDecl {
    s.(fields := EraseDisabled(s.fields, (f: StructField) => f.enableIf, enabled),
       enums := FilterEnums(EraseDisabled(s.enums, (e: EnumDecl) => e.enableIf, enabled), enabled))
  }

  function FilterUnion(u: UnionDecl, enabled: set<string>): UnionDecl {
    u.(fields := EraseDisabled(u.fields, (f: UnionField) => f.enableIf, enabled))
  }

  function FilterStructs(structs: seq<StructDecl>, enabled: set<string>): seq<StructDecl> {
    if structs == [] then [] else [FilterStruct(structs[0], enabled)] + FilterStructs(structs[1..], enabled)
  }

  /** Filters each union, then drops those left without a field. */
  function FilterUnions(unions: seq<UnionDecl>, enabled: set<string>): seq<UnionDecl> {
    if unions == [] then []
    else
      var u := FilterUnion(unions[0], enabled);
      (if u.fields == [] then [] else [u]) + FilterUnions(unions[1..], enabled)
  }

  function EnabledStructs(structs: seq<StructDecl>, enabled: set<string>): seq<StructDecl> {
    FilterStructs(EraseDisabled(structs, (s: StructDecl) => s.enableIf, enabled), enabled)
  }

  function EnabledUnions(unions: seq<UnionDecl>, enabled: set<string>): seq<UnionDecl> {
    FilterUnions(EraseDisabled(unions, (u: UnionDecl) => u.enableIf, enabled), enabled)
  }

  function FilterInterface(i: Interface, enabled: set<string>): Interface {
    i.(methods := EraseDisabled(i.methods, (m: Method) => m.enableIf, enabled),
       enums := FilterEnums(EraseDisabled(i.enums, (e: EnumDecl) => e.enableIf, enabled), enabled),
       structs := EnabledStructs(i.structs, enabled),
       unions := EnabledUnions(i.unions, enabled))
  }

  function FilterInterfaces(interfaces: seq<Interface>, enabled: set<string>): seq<Interface> {
    if interfaces == [] then []
    else [FilterInterface(interfaces[0], enabled)] + FilterInterfaces(interfaces[1..], enabled)
  }

  function EnabledInterfaces(interfaces: seq<Interface>, enabled: set<string>): seq<Interface> {
    FilterInterfaces(EraseDisabled(interfaces, (i: Interface) => i.enableIf, enabled), enabled)
  }

  function ApplyEnableIf(m: Module, enabled: set<string>): Module {
    m.(enums := FilterEnums(EraseDisabled(m.enums, (e: EnumDecl) => e.enableIf, enabled), enabled),
       structs := EnabledStructs(m.structs, enabled),
       unions := EnabledUnions(m.unions, enabled),
       interfaces := EnabledInterfaces(m.interfaces, enabled))
  }

  // ----- what filtering leaves -----

  /** The same declaration with some of its members gone. */
  predicate Thinner(small: Embed, big: Embed) {
    small.key == big.key && forall d <- AllDeps(small.types) :: d in AllDeps(big.types)
  }

  /** `small` is `big` with some declarations gone and others thinned. */
  predicate Thins(small: seq<Embed>, big: seq<Embed>)
    decreases |big|
  {
    if small == [] then true
    else big != [] && ((Thinner(small[0], big[0]) && Thins(small[1..], big[1..])) || Thins(small, big[1..]))
  }

  lemma {:induction false} ThinsConcat(a: seq<Embed>, b: seq<Embed>, c: seq<Embed>, d: seq<Embed>)
    requires Thins(a, b) && Thins(c, d)
    ensures Thins(a + c, b + d)
    decreases |b|
  {
    if b == [] {
      assert a + c == c && b + d == d;
    } else {
      assert (b + d)[1..] == b[1..] + d && (b + d)[0] == b[0];
      if a == [] {
        ThinsConcat(a, b[1..], c, d);
      } else if Thinner(a[0], b[0]) && Thins(a[1..], b[1..]) {
        ThinsConcat(a[1..], b[1..], c, d);
        assert (a + c)[1..] == a[1..] + c;
      } else {
        ThinsConcat(a, b[1..], c, d);
      }
    }
  }

  lemma {:induction false} ThinsMember(small: seq<Embed>, big: seq<Embed>, e: Embed) returns (e': Embed)
    requires Thins(small, big) && e in small
    ensures e' in big && Thinner(e, e')
    decreases |big|
  {
    if Thinner(small[0], big[0]) && Thins(small[1..], big[1..]) {
      if e == small[0] {
        e' := big[0];
      } else {
        e' := ThinsMember(small[1..], big[1..], e);
      }
    } else {
      e' := ThinsMember(small, big[1..], e);
    }
  }

  lemma {:induction false} ThinsDistinct(small: seq<Embed>, big: seq<Embed>)
    requires Thins(small, big) && DistinctKeys(big)
    ensures DistinctKeys(small)
    decreases |big|
  {
    if small != [] {
      if Thinner(small[0], big[0]) && Thins(small[1..], big[1..]) {
        ThinsDistinct(small[1..], big[1..]);
        forall j | 0 < j < |small| ensures small[0].key != small[j].key {
          assert small[j] == small[1..][j - 1];
          var e := ThinsMember(small[1..], big[1..], small[j]);
          var k :| 0 <= k < |big[1..]| && big[1..][k] == e;
          assert big[k + 1] == e;
        }
        forall i, j | 0 <= i < j < |small| ensures small[i].key != small[j].key {
          if i > 0 { assert small[i] == small[1..][i - 1] && small[j] == small[1..][j - 1]; }
        }
      } else {
        ThinsDistinct(small, big[1..]);
      }
    }
  }

  lemma ThinsCycle(small: seq<Embed>, big: seq<Embed>)
    requires Thins(small, big) && ByValueCycle(small)
    ensures ByValueCycle(big)
  {
    var p :| NeedsCycle(small, p);
    forall i | 0 <= i < |p| - 1 ensures Needs(big, p[i + 1], p[i]) {
      assert Needs(small, p[i + 1], p[i]);
      var user :| user in small && user.key == p[i + 1] && p[i] in AllDeps(user.types);
      var dep :| dep in small && dep.key == p[i];
      var user' := ThinsMember(small, big, user);
      var dep' := ThinsMember(small, big, dep);
      assert Declared(big, p[i]);
    }
    assert NeedsCycle(big, p);
  }

  lemma {:induction false} ErasedStructThins(s: StructDecl, fields: seq<StructField>, enabled: set<string>)
    ensures Thinner(OfStruct(s.(fields := EraseDisabled(fields, (f: StructField) => f.enableIf, enabled))),
                    OfStruct(s.(fields := fields)))
  {
    var spec := (f: StructField) => f.enableIf;
    var kept := EraseDisabled(fields, spec, enabled);
    if fields != [] {
      ErasedStructThins(s, fields[1..], enabled);
      var rest := EraseDisabled(fields[1..], spec, enabled);
      assert OfStruct(s.(fields := fields)).types[1..] == OfStruct(s.(fields := fields[1..])).types;
      if IsDeclEnabled(spec(fields[0]), enabled) {
        assert kept == [fields[0]] + rest;
        assert OfStruct(s.(fields := kept)).types[1..] == OfStruct(s.(fields := rest)).types;
      } else {
        assert kept == rest;
      }
    }
  }

  lemma {:induction false} ErasedUnionThins(u: UnionDecl, fields: seq<UnionField>, enabled: set<string>)
    ensures Thinner(OfUnion(u.(fields := EraseDisabled(fields, (f: UnionField) => f.enableIf, enabled))),
                    OfUnion(u.(fields := fields)))
  {
    var spec := (f: UnionField) => f.enableIf;
    var kept := EraseDisabled(fields, spec, enabled);
    if fields != [] {
      ErasedUnionThins(u, fields[1..], enabled);
      var rest := EraseDisabled(fields[1..], spec, enabled);
      assert OfUnion(u.(fields := fields)).types[1..] == OfUnion(u.(fields := fields[1..])).types;
      if IsDeclEnabled(spec(fields[0]), enabled) {
        assert kept == [fields[0]] + rest;
        assert OfUnion(u.(fields := kept)).types[1..] == OfUnion(u.(fields := rest)).types;
      } else {
        assert kept == rest;
      }
    }
  }

  lemma {:induction false} StructsThin(structs: seq<StructDecl>, enabled: set<string>)
    ensures Thins(OfStructs(EnabledStructs(structs, enabled)), OfStructs(structs))
  {
    if structs != [] {
      var spec := (s: StructDecl) => s.enableIf;
      StructsThin(structs[1..], enabled);
      assert OfStructs(structs)[1..] == OfStructs(structs[1..]);
      var rest := EraseDisabled(structs[1..], spec, enabled);
      if IsDeclEnabled(structs[0].enableIf, enabled) {
        assert EraseDisabled(structs, spec, enabled) == [structs[0]] + rest;
        ErasedStructThins(structs[0], structs[0].fields, enabled);
        var out := EnabledStructs(structs, enabled);
        assert out == [FilterStruct(structs[0], enabled)] + FilterStructs(rest, enabled);
        assert OfStructs(out)[1..] == OfStructs(EnabledStructs(structs[1..], enabled));
        assert Thinner(OfStructs(out)[0], OfStructs(structs)[0]);
      } else {
        assert EraseDisabled(structs, spec, enabled) == rest;
      }
    }
  }

  lemma {:induction false} UnionsThin(unions: seq<UnionDecl>, enabled: set<string>)
    ensures Thins(OfUnions(EnabledUnions(unions, enabled)), OfUnions(unions))
  {
    if unions != [] {
      var spec := (u: UnionDecl) => u.enableIf;
      UnionsThin(unions[1..], enabled);
      assert OfUnions(unions)[1..] == OfUnions(unions[1..]);
      var rest := EraseDisabled(unions[1..], spec, enabled);
      var u := FilterUnion(unions[0], enabled);
      if IsDeclEnabled(unions[0].enableIf, enabled) {
        assert EraseDisabled(unions, spec, enabled) == [unions[0]] + rest;
        var out := EnabledUnions(unions, enabled);
        if u.fields == [] {
          assert out == FilterUnions(rest, enabled);
        } else {
          ErasedUnionThins(unions[0], unions[0].fields, enabled);
          assert out == [u] + FilterUnions(rest, enabled);
          assert OfUnions(out)[1..] == OfUnions(EnabledUnions(unions[1..], enabled));
          assert Thinner(OfUnions(out)[0], OfUnions(unions)[0]);
        }
      } else {
        assert EraseDisabled(unions, spec, enabled) == rest;
      }
    }
  }

  lemma {:induction false} NestedThin(interfaces: seq<Interface>, enabled: set<string>)
    ensures Thins(NestedStructs(EnabledInterfaces(interfaces, enabled)), NestedStructs(interfaces))
    ensures Thins(NestedUnions(EnabledInterfaces(interfaces, enabled)), NestedUnions(interfaces))
  {
    hide Thins;
    if interfaces == [] {
      NothingThins([]);
    } else {
      var spec := (i: Interface) => i.enableIf;
      var rest := EraseDisabled(interfaces[1..], spec, enabled);
      var i := interfaces[0];
      NestedThin(interfaces[1..], enabled);
      var structs, unions := NestedStructs(FilterInterfaces(rest, enabled)), NestedUnions(FilterInterfaces(rest, enabled));
      if IsDeclEnabled(i.enableIf, enabled) {
        assert EraseDisabled(interfaces, spec, enabled) == [i] + rest;
        var out := EnabledInterfaces(interfaces, enabled);
        assert out == [FilterInterface(i, enabled)] + FilterInterfaces(rest, enabled);
        assert out[1..] == FilterInterfaces(rest, enabled);
        StructsThin(i.structs, enabled);
        UnionsThin(i.unions, enabled);
        ThinsConcat(OfStructs(EnabledStructs(i.structs, enabled)), OfStructs(i.structs), structs, NestedStructs(interfaces[1..]));
        ThinsConcat(OfUnions(EnabledUnions(i.unions, enabled)), OfUnions(i.unions), unions, NestedUnions(interfaces[1..]));
      } else {
        assert EraseDisabled(interfaces, spec, enabled) == rest;
        NothingThins(OfStructs(i.structs));
        NothingThins(OfUnions(i.unions));
        ThinsConcat([], OfStructs(i.structs), structs, NestedStructs(interfaces[1..]));
        ThinsConcat([], OfUnions(i.unions), unions, NestedUnions(interfaces[1..]));
        assert [] + structs == structs && [] + unions == unions;
      }
    }
  }

  lemma NothingThins(big: seq<Embed>)
    ensures Thins([], big)
  {
  }

  /** Filtering only removes: declarations keep their names and order, members only go. */
  lemma FilteredThins(m: Module, enabled: set<string>)
    ensures Thins(GeneratorOrder(ApplyEnableIf(m, enabled)), GeneratorOrder(m))
  {
    hide Thins, EnabledStructs, EnabledUnions, EnabledInterfaces;
    StructsThin(m.structs, enabled);
    UnionsThin(m.unions, enabled);
    NestedThin(m.interfaces, enabled);
    var f := ApplyEnableIf(m, enabled);
    ThinsConcat(OfStructs(f.structs), OfStructs(m.structs), NestedStructs(f.interfaces), NestedStructs(m.interfaces));
    ThinsConcat(OfUnions(f.unions), OfUnions(m.unions), NestedUnions(f.interfaces), NestedUnions(m.interfaces));
    ThinsConcat(OfStructs(f.structs) + NestedStructs(f.interfaces), OfStructs(m.structs) + NestedStructs(m.interfaces),
                OfUnions(f.unions) + NestedUnions(f.interfaces), OfUnions(m.unions) + NestedUnions(m.interfaces));
  }

  // ----- parser and generator -----

  /** With distinct names, a circle of positions is a by-value cycle of names. */
  lemma FeedsIsNeeds(embeds: seq<Embed>)
    requires DistinctKeys(embeds)
    ensures (exists p :: EmissionOrder.FeedsCycle(embeds, p)) <==> ByValueCycle(embeds)
  {
    hide EmissionOrder.FeedsCycle, NeedsCycle;
    if p :| EmissionOrder.FeedsCycle(embeds, p) { FeedsToNeeds(embeds, p); }
    if q :| NeedsCycle(embeds, q) { NeedsToFeeds(embeds, q); }
  }

  lemma FeedsToNeeds(embeds: seq<Embed>, p: seq<nat>)
    requires EmissionOrder.FeedsCycle(embeds, p)
    ensures ByValueCycle(embeds)
  {
    forall i | 0 <= i < |p| ensures p[i] < |embeds| {
      if i < |p| - 1 {
        assert EmissionOrder.Feeds(embeds, p[i], p[i + 1]);
      } else {
        assert EmissionOrder.Feeds(embeds, p[0], p[0 + 1]);
      }
    }
    var q := seq(|p|, i requires 0 <= i < |p| => embeds[p[i]].key);
    forall i | 0 <= i < |q| - 1 ensures Needs(embeds, q[i + 1], q[i]) {
      assert EmissionOrder.Feeds(embeds, p[i], p[i + 1]);
      assert embeds[p[i]] in embeds && embeds[p[i + 1]] in embeds && Declared(embeds, q[i]);
    }
    assert NeedsCycle(embeds, q);
  }

  lemma NeedsToFeeds(embeds: seq<Embed>, q: seq<string>)
    requires DistinctKeys(embeds) && NeedsCycle(embeds, q)
    ensures exists p :: EmissionOrder.FeedsCycle(embeds, p)
  {
    forall i | 0 <= i < |q| ensures Declared(embeds, q[i]) {
      if i < |q| - 1 {
        assert Needs(embeds, q[i + 1], q[i]);
      } else {
        assert Needs(embeds, q[0 + 1], q[0]);
      }
    }
    var p := Positions(embeds, q);
    forall i | 0 <= i < |p| - 1 ensures EmissionOrder.Feeds(embeds, p[i], p[i + 1]) {
      assert Needs(embeds, q[i + 1], q[i]);
      var e :| e in embeds && e.key == q[i + 1] && q[i] in AllDeps(e.types);
      var k :| 0 <= k < |embeds| && embeds[k] == e;
      assert k == p[i + 1];
    }
    assert EmissionOrder.FeedsCycle(embeds, p);
  }

  lemma {:induction false} Positions(embeds: seq<Embed>, q: seq<string>) returns (p: seq<nat>)
    requires DistinctKeys(embeds) && forall i :: 0 <= i < |q| ==> Declared(embeds, q[i])
    ensures |p| == |q| && forall i :: 0 <= i < |p| ==> p[i] < |embeds| && embeds[p[i]].key == q[i]
  {
    p := [];
    while |p| < |q|
      invariant |p| <= |q| && forall i :: 0 <= i < |p| ==> p[i] < |embeds| && embeds[p[i]].key == q[i]
    {
      assert Declared(embeds, q[|p|]);
      var e :| e in embeds && e.key == q[|p|];
      var k: nat :| k < |embeds| && embeds[k] == e;
      p := p + [k];
    }
  }

  /**
    A module the parser accepted can be ordered, and ordered again after filtering under any
    flags: the generator's "parser should have rejected this" is never reached. With distinct
    names the parser accepts nothing less than what can be ordered.
   */
  method CompileOrder(m: Module, enabled: set<string>)
    returns (accepted: bool, sorted: bool, filteredSorted: bool, out: seq<Embed>)
    ensures accepted ==> sorted && filteredSorted
    ensures DistinctKeys(GeneratorOrder(m)) ==> (accepted <==> sorted)
  {
    hide GeneratorOrder, ApplyEnableIf, ByValueCycle, EmissionOrder.FeedsCycle, Thins, DistinctKeys;
    ghost var order;
    accepted := CycleCheck.CheckCompleteTypeAcyclic(m);
    sorted, out, order := EmissionOrder.SortEmbeds(GeneratorOrder(m));
    AcyclicFeeds(GeneratorOrder(m));
    if DistinctKeys(GeneratorOrder(m)) { FeedsIsNeeds(GeneratorOrder(m)); }
    var filtered := GeneratorOrder(ApplyEnableIf(m, enabled));
    filteredSorted, out, order := EmissionOrder.SortEmbeds(filtered);
    FilteredThins(m, enabled);
    AcyclicFeeds(filtered);
    if ByValueCycle(filtered) {
      ThinsCycle(filtered, GeneratorOrder(m));
    }
  }

  /** No by-value cycle of names leaves no circle of positions, whatever the names. */
  lemma AcyclicFeeds(embeds: seq<Embed>)
    ensures (exists p :: EmissionOrder.FeedsCycle(embeds, p)) ==> ByValueCycle(embeds)
  {
    hide EmissionOrder.FeedsCycle, ByValueCycle;
    if p :| EmissionOrder.FeedsCycle(embeds, p) { FeedsToNeeds(embeds, p); }
  }

  const Always := EnableIf(EnableIfClause(NoClause, []), EnableIfClause(NoClause, []))

  /** struct A_B { A_B self; }; interface A { struct B {}; }; - two declarations called A_B. */
  function TwoNames(): Module {
    var self := StructField("self", TypeSpec(Named(StructRef, "A_B", "", ""), false), 0, VStruct([]), Always);
    var nested := StructDecl("B", [], [], 1, "A", Always);
    Module("", [], [StructDecl("A_B", [self], [], 0, "", Always)], [], [Interface("A", [], [], [nested], [], Always)])
  }

  /** The name's last holder stands in for the first: the parser rejects what the generator can order. */
  lemma DuplicateNames()
    ensures ByValueCycle(GeneratorOrder(TwoNames()))
    ensures !exists p :: EmissionOrder.FeedsCycle(GeneratorOrder(TwoNames()), p)
  {
    var m := TwoNames();
    var embeds := GeneratorOrder(m);
    assert m.interfaces[1..] == [];
    assert embeds == [OfStruct(m.structs[0]), OfStruct(m.interfaces[0].structs[0])];
    assert embeds[0].key == "A_B" && embeds[1].key == "A" + "_" + "B" == "A_B";
    assert embeds[0].types[1..] == [] && AllDeps(embeds[0].types) == ["A_B"];
    assert embeds[0] in embeds && Declared(embeds, "A_B") && Needs(embeds, "A_B", "A_B");
    assert NeedsCycle(embeds, ["A_B", "A_B"]);
    assert embeds[1].types == [];
    assert forall i, j :: EmissionOrder.Feeds(embeds, i, j) ==> i == 1 && j == 0;
    forall p ensures !EmissionOrder.FeedsCycle(embeds, p) { OneEdge(embeds, 1, 0, p); }
  }

  lemma OneEdge(embeds: seq<Embed>, a: nat, b: nat, p: seq<nat>)
    requires a != b && forall i, j :: EmissionOrder.Feeds(embeds, i, j) ==> i == a && j == b
    ensures !EmissionOrder.FeedsCycle(embeds, p)
  {
    if |p| >= 2 {
      assert p[0] == p[0 + 1] ==> !EmissionOrder.Feeds(embeds, p[0], p[0 + 1]);
      assert |p| > 2 ==> !EmissionOrder.Feeds(embeds, p[0], p[0 + 1]) || !EmissionOrder.Feeds(embeds, p[1], p[1 + 1]);
    }
  }
}
