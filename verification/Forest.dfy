/**
  Interface inheritance: the base chain check, the children map, and the walk over descendants.
 */
module Forest {
  import Graph

  /** An interface declaration; an empty base name means it has no base. */
  datatype Interface = Interface(name: string, base: string)

  /** Each interface's base name, by name. */
  type Bases = map<string, string>

  // ----- what inheritance means -----

  /** Following base links k times leads from d to b. */
  function Climbs(m: Bases, d: string, b: string, k: nat): (r: bool)
    ensures r ==> b in m
    decreases k
  {
    d in m && if k == 0 then d == b else m[d] != "" && Climbs(m, m[d], b, k - 1)
  }

  /** b is d or one of its ancestors. */
  ghost function Descends(m: Bases, d: string, b: string): (r: bool)
    ensures r ==> d in m && b in m
  {
    exists k: nat :: Climbs(m, d, b, k)
  }

  /** The base chain ends at an interface without a base. */
  ghost predicate Rooted(m: Bases, d: string) {
    exists r :: Descends(m, d, r) && m[r] == ""
  }

  /** Some interface on the chain is its own proper ancestor. */
  ghost predicate OnCycle(m: Bases, d: string) {
    exists a :: Descends(m, d, a) && m[a] != "" && Descends(m, m[a], a)
  }

  /** Some interface on the chain has a base that is not declared. */
  ghost predicate Dangles(m: Bases, d: string) {
    exists a :: Descends(m, d, a) && m[a] != "" && m[a] !in m
  }

  ghost predicate Accepted(m: Bases) {
    forall d :: d in m ==> Rooted(m, d)
  }

  /** Every descendant of b, itself included. */
  ghost function Below(m: Bases, b: string): set<string> {
    set d | d in m && Descends(m, d, b)
  }

  lemma {:induction false} ClimbsOn(m: Bases, d: string, a: string, b: string, i: nat, j: nat)
    requires Climbs(m, d, a, i) && Climbs(m, a, b, j)
    ensures Climbs(m, d, b, i + j)
    decreases i
  {
    if i > 0 { ClimbsOn(m, m[d], a, b, i - 1, j); }
  }

  /** Of two ancestors the farther one is an ancestor of the nearer. */
  lemma {:induction false} ClimbsRest(m: Bases, d: string, a: string, b: string, i: nat, j: nat)
    requires Climbs(m, d, a, i) && Climbs(m, d, b, j) && i <= j
    ensures Climbs(m, a, b, j - i)
    decreases i
  {
    if i > 0 { ClimbsRest(m, m[d], a, b, i - 1, j - 1); }
  }

  /** A chain that reaches a root never passes the same interface twice. */
  lemma {:induction false} NoReturn(m: Bases, d: string, r: string, j: nat, k: nat)
    requires Climbs(m, d, r, j) && m[r] == "" && Climbs(m, d, d, k)
    ensures k == 0
    decreases j
  {
    if k > 0 && j > 0 {
      assert Climbs(m, d, m[d], 1) by { assert m[d] in m; }
      ClimbsOn(m, m[d], d, m[d], k - 1, 1);
      NoReturn(m, m[d], r, j - 1, k);
    }
  }

  lemma DescendsRefl(m: Bases, d: string)
    requires d in m
    ensures Descends(m, d, d)
  {
    assert Climbs(m, d, d, 0);
  }

  lemma DescendsTrans(m: Bases, d: string, a: string, b: string)
    requires Descends(m, d, a) && Descends(m, a, b)
    ensures Descends(m, d, b)
  {
    var i: nat :| Climbs(m, d, a, i);
    var j: nat :| Climbs(m, a, b, j);
    ClimbsOn(m, d, a, b, i, j);
  }

  /** One base link, or none. */
  lemma DescendsUnfold(m: Bases, d: string, b: string)
    ensures Descends(m, d, b) <==> d in m && (d == b || (m[d] != "" && Descends(m, m[d], b)))
  {
    if Descends(m, d, b) {
      var k: nat :| Climbs(m, d, b, k);
      if k > 0 { assert Climbs(m, m[d], b, k - 1); }
    } else if d in m {
      assert !Climbs(m, d, b, 0);
      if m[d] != "" && Descends(m, m[d], b) {
        var k: nat :| Climbs(m, m[d], b, k);
        assert Climbs(m, d, b, k + 1);
      }
    }
  }

  /** Nothing rooted is a descendant of its own child. */
  lemma NotBelowChild(m: Bases, b: string, c: string)
    requires Accepted(m) && c in m && m[c] == b && b != ""
    ensures !Descends(m, b, c)
  {
    if Descends(m, b, c) {
      var k: nat :| Climbs(m, b, c, k);
      assert Climbs(m, c, b, 1);
      ClimbsOn(m, b, c, b, k, 1);
      var r :| Descends(m, b, r) && m[r] == "";
      var j: nat :| Climbs(m, b, r, j);
      NoReturn(m, b, r, j, k + 1);
    }
  }

  lemma DescendsAntisymmetric(m: Bases, a: string, b: string)
    requires Accepted(m) && Descends(m, a, b) && Descends(m, b, a)
    ensures a == b
  {
    DescendsUnfold(m, a, b);
    if a != b {
      DescendsTrans(m, m[a], b, a);
      NotBelowChild(m, m[a], a);
    }
  }

  /** Subtrees are nested or disjoint. */
  lemma Comparable(m: Bases, d: string, a: string, b: string)
    requires Descends(m, d, a) && Descends(m, d, b)
    ensures Descends(m, a, b) || Descends(m, b, a)
  {
    var i: nat :| Climbs(m, d, a, i);
    var j: nat :| Climbs(m, d, b, j);
    if i <= j { ClimbsRest(m, d, a, b, i, j); } else { ClimbsRest(m, d, b, a, j, i); }
  }

  /** Two interfaces with the same base, or two without one, have nothing below in common. */
  lemma SiblingsApart(m: Bases, c: string, e: string)
    requires Accepted(m) && c in m && e in m && m[c] == m[e] && c != e
    ensures !Descends(m, c, e)
    ensures Below(m, c) !! Below(m, e)
  {
    NotBelow(m, c, e);
    NotBelow(m, e, c);
    if d :| d in Below(m, c) && d in Below(m, e) {
      Comparable(m, d, c, e);
    }
  }

  lemma NotBelow(m: Bases, c: string, e: string)
    requires Accepted(m) && c in m && e in m && m[c] == m[e] && c != e
    ensures !Descends(m, c, e)
  {
    if Descends(m, c, e) {
      DescendsUnfold(m, c, e);
      NotBelowChild(m, m[c], e);
    }
  }

  // ----- the check -----

  datatype ChainCheck = ChainOk | UnknownBase | CyclicChain

  /** CheckBaseChain, which accepts a chain exactly when it ends, and otherwise says why it does not. */
  method CheckBaseChain(m: Bases, name: string) returns (r: ChainCheck)
    requires name in m
    ensures r.ChainOk? <==> Rooted(m, name)
    ensures r.UnknownBase? <==> Dangles(m, name)
    ensures r.CyclicChain? <==> OnCycle(m, name)
  {
    var visited, current := {name}, name;
    DescendsRefl(m, name);
    while m[current] != ""
      invariant current in m && current in visited && visited <= m.Keys
      invariant forall v :: v in visited ==> Descends(m, name, v) && Descends(m, v, current)
      decreases m.Keys - visited
    {
      var base := m[current];
      if base !in m {
        OneEnd(m, name, current);
        return UnknownBase;
      }
      if base in visited {
        OneEnd(m, name, current);
        return CyclicChain;
      }
      DescendsRefl(m, base);
      DescendsUnfold(m, current, base);
      forall v | v in visited ensures Descends(m, v, base) { DescendsTrans(m, v, current, base); }
      DescendsTrans(m, name, current, base);
      visited := visited + {base};
      current := base;
    }
    OneEnd(m, name, current);
    r := ChainOk;
  }

  /** The resolver's loop over a module's interfaces. */
  method CheckBaseChains(m: Bases, ifaces: seq<Interface>) returns (ok: bool)
    requires Distinct(ifaces) && m == BasesOf(ifaces)
    ensures ok <==> Accepted(m)
  {
    hide BasesOf;
    BasesOfIs(ifaces);
    for i := 0 to |ifaces|
      invariant forall k :: 0 <= k < i ==> Rooted(m, ifaces[k].name)
    {
      var iface := ifaces[i];
      if iface.base != "" {
        var r := CheckBaseChain(m, iface.name);
        if !r.ChainOk? { return false; }
      } else {
        DescendsRefl(m, iface.name);
      }
    }
    forall d | d in m ensures Rooted(m, d) {
      var k :| 0 <= k < |ifaces| && ifaces[k] == Interface(d, m[d]);
    }
    ok := true;
  }

  /** However a chain ends, it ends in just one of the three ways. */
  lemma OneEnd(m: Bases, d: string, a: string)
    requires Descends(m, d, a)
    ensures m[a] == "" ==> Rooted(m, d) && !Dangles(m, d) && !OnCycle(m, d)
    ensures m[a] != "" && m[a] !in m ==> !Rooted(m, d) && Dangles(m, d) && !OnCycle(m, d)
    ensures m[a] != "" && Descends(m, m[a], a) ==> !Rooted(m, d) && !Dangles(m, d) && OnCycle(m, d)
  {
    forall e | Descends(m, d, e)
      ensures m[a] == "" ==> m[e] == "" || (m[e] in m && !Descends(m, m[e], e))
      ensures m[a] != "" && m[a] !in m ==> m[e] != "" && !Descends(m, m[e], e)
      ensures m[a] != "" && Descends(m, m[a], a) ==> m[e] != "" && m[e] in m
    {
      EndsMeet(m, d, a, e);
    }
  }

  lemma EndsMeet(m: Bases, d: string, a: string, e: string)
    requires Descends(m, d, a) && Descends(m, d, e)
    ensures a in m && e in m
    ensures m[a] == "" ==> m[e] == "" || (m[e] in m && !Descends(m, m[e], e))
    ensures m[a] != "" && m[a] !in m ==> m[e] != "" && !Descends(m, m[e], e)
    ensures m[a] != "" && Descends(m, m[a], a) ==> m[e] != "" && m[e] in m
  {
    if m[a] == "" || m[a] !in m {
      StopIsLast(m, d, a, e);
    } else if Descends(m, m[a], a) && (m[e] == "" || m[e] !in m) {
      StopIsLast(m, d, e, a);
    }
  }

  /** Where a chain stops, everything else on it leads there and nothing on it comes round again. */
  lemma StopIsLast(m: Bases, d: string, a: string, e: string)
    requires Descends(m, d, a) && Descends(m, d, e) && a in m && (m[a] == "" || m[a] !in m)
    ensures e in m && (e == a || (m[e] != "" && m[e] in m))
    ensures m[e] == "" || !Descends(m, m[e], e)
  {
    var i: nat :| Climbs(m, d, a, i);
    var j: nat :| Climbs(m, d, e, j);
    if j > i { ClimbsRest(m, d, a, e, i, j); }
    ClimbsRest(m, d, e, a, j, i);
    if m[e] != "" && Descends(m, m[e], e) {
      var k: nat :| Climbs(m, m[e], e, k);
      assert Climbs(m, e, e, k + 1);
      NoReturnToStop(m, e, a, i - j, k + 1);
    }
  }

  lemma {:induction false} NoReturnToStop(m: Bases, d: string, a: string, j: nat, k: nat)
    requires Climbs(m, d, a, j) && a in m && (m[a] == "" || m[a] !in m) && Climbs(m, d, d, k)
    ensures k == 0
    decreases j
  {
    if k > 0 && j > 0 {
      assert Climbs(m, d, m[d], 1);
      ClimbsOn(m, m[d], d, m[d], k - 1, 1);
      NoReturnToStop(m, m[d], a, j - 1, k);
    }
  }

  // ----- the maps a generator works from -----

  /** Interfaces have names of their own. */
  predicate Distinct(ifaces: seq<Interface>) {
    && (forall i :: 0 <= i < |ifaces| ==> ifaces[i].name != "")
    && forall i, j :: 0 <= i < j < |ifaces| ==> ifaces[i].name != ifaces[j].name
  }

  function BasesOf(ifaces: seq<Interface>): Bases {
    if ifaces == [] then map[]
    else BasesOf(ifaces[..|ifaces| - 1])[ifaces[|ifaces| - 1].name := ifaces[|ifaces| - 1].base]
  }

  /** The interfaces declared with this base, in declaration order. */
  function Children(ifaces: seq<Interface>, base: string): seq<string> {
    if ifaces == [] then []
    else
      var last := ifaces[|ifaces| - 1];
      Children(ifaces[..|ifaces| - 1], base) + if last.base == base then [last.name] else []
  }

  lemma {:induction false} BasesOfAt(ifaces: seq<Interface>, i: nat)
    requires Distinct(ifaces) && i < |ifaces|
    ensures ifaces[i].name in BasesOf(ifaces) && BasesOf(ifaces)[ifaces[i].name] == ifaces[i].base
  {
    if i < |ifaces| - 1 { BasesOfAt(ifaces[..|ifaces| - 1], i); }
  }

  lemma {:induction false} BasesOfFrom(ifaces: seq<Interface>, n: string) returns (i: nat)
    requires n in BasesOf(ifaces)
    ensures i < |ifaces| && ifaces[i] == Interface(n, BasesOf(ifaces)[n])
  {
    i := |ifaces| - 1;
    if ifaces[i].name != n { i := BasesOfFrom(ifaces[..i], n); }
  }

  lemma {:induction false} BasesOfSize(ifaces: seq<Interface>)
    requires Distinct(ifaces)
    ensures |BasesOf(ifaces).Keys| == |ifaces|
  {
    if ifaces != [] {
      var front, last := ifaces[..|ifaces| - 1], ifaces[|ifaces| - 1];
      BasesOfSize(front);
      if last.name in BasesOf(front) { var i := BasesOfFrom(front, last.name); }
      assert BasesOf(ifaces).Keys == BasesOf(front).Keys + {last.name};
    }
  }

  lemma BasesOfIs(ifaces: seq<Interface>)
    requires Distinct(ifaces)
    ensures forall i :: 0 <= i < |ifaces| ==> ifaces[i].name in BasesOf(ifaces) && BasesOf(ifaces)[ifaces[i].name] == ifaces[i].base
    ensures forall n :: n in BasesOf(ifaces) ==> Interface(n, BasesOf(ifaces)[n]) in ifaces
  {
    hide BasesOf, Distinct;
    forall i | 0 <= i < |ifaces|
      ensures ifaces[i].name in BasesOf(ifaces) && BasesOf(ifaces)[ifaces[i].name] == ifaces[i].base
    {
      BasesOfAt(ifaces, i);
    }
    forall n | n in BasesOf(ifaces) ensures Interface(n, BasesOf(ifaces)[n]) in ifaces {
      var i := BasesOfFrom(ifaces, n);
    }
  }

  /** Children lists each interface of that base once. */
  lemma {:induction false} ChildrenAre(ifaces: seq<Interface>, base: string)
    requires Distinct(ifaces)
    ensures forall n :: n in Children(ifaces, base) <==> Interface(n, base) in ifaces
    ensures forall i, j :: 0 <= i < j < |Children(ifaces, base)| ==> Children(ifaces, base)[i] != Children(ifaces, base)[j]
  {
    if ifaces != [] {
      var front, last := ifaces[..|ifaces| - 1], ifaces[|ifaces| - 1];
      assert ifaces == front + [last];
      ChildrenAre(front, base);
      forall n ensures n in Children(ifaces, base) <==> Interface(n, base) in ifaces {
        assert Interface(n, base) in ifaces <==> Interface(n, base) in front || Interface(n, base) == last;
      }
      assert forall n :: n in Children(front, base) ==> n != last.name;
    }
  }

  lemma ChildrenOf(ifaces: seq<Interface>, base: string, n: string)
    requires Distinct(ifaces)
    ensures n in Children(ifaces, base) <==> n in BasesOf(ifaces) && BasesOf(ifaces)[n] == base
  {
    hide Children, BasesOf;
    ChildrenAre(ifaces, base);
    BasesOfIs(ifaces);
    if Interface(n, base) in ifaces {
      var i :| 0 <= i < |ifaces| && ifaces[i] == Interface(n, base);
    }
  }

  datatype Context = Context(ifaces: seq<Interface>, bases: Bases, children: map<string, seq<string>>)

  /** A context whose maps hold what the declarations say. */
  ghost predicate Built(ctx: Context) {
    && Distinct(ctx.ifaces)
    && ctx.bases == BasesOf(ctx.ifaces)
    && "" !in ctx.children
    && forall b :: b != "" ==> ChildrenIn(ctx.children, b) == Children(ctx.ifaces, b)
  }

  /** What a lookup in the children map finds. */
  function ChildrenIn(children: map<string, seq<string>>, base: string): seq<string> {
    if base in children then children[base] else []
  }

  method BuildContext(ifaces: seq<Interface>) returns (ctx: Context)
    requires Distinct(ifaces)
    ensures Built(ctx) && ctx.ifaces == ifaces
  {
    hide Children;
    var bases: Bases := map[];
    for i := 0 to |ifaces|
      invariant bases == BasesOf(ifaces[..i])
    {
      assert ifaces[..i + 1][..i] == ifaces[..i];
      bases := bases[ifaces[i].name := ifaces[i].base];
    }
    assert ifaces[..|ifaces|] == ifaces;
    var children := FillChildren(ifaces);
    ctx := Context(ifaces, bases, children);
  }

  method FillChildren(ifaces: seq<Interface>) returns (children: map<string, seq<string>>)
    ensures "" !in children
    ensures forall b :: b != "" ==> ChildrenIn(children, b) == Children(ifaces, b)
  {
    hide Children;
    children := map[];
    assert forall b :: Children(ifaces[..0], b) == [] by { ChildrenOfNone(); }
    for i := 0 to |ifaces|
      invariant "" !in children
      invariant forall b :: b != "" ==> ChildrenIn(children, b) == Children(ifaces[..i], b)
    {
      var iface := ifaces[i];
      ghost var before := children;
      if iface.base != "" {
        children := children[iface.base := ChildrenIn(children, iface.base) + [iface.name]];
      }
      forall b | b != "" ensures ChildrenIn(children, b) == Children(ifaces[..i + 1], b) {
        ChildrenStep(ifaces, i, b);
        assert ChildrenIn(before, b) == Children(ifaces[..i], b);
        if b != iface.base { assert Children(ifaces[..i], b) + [] == Children(ifaces[..i], b); }
      }
    }
    assert ifaces[..|ifaces|] == ifaces;
  }

  lemma ChildrenOfNone()
    ensures forall b :: Children([], b) == []
  {
  }

  lemma ChildrenStep(ifaces: seq<Interface>, i: nat, b: string)
    requires i < |ifaces|
    ensures Children(ifaces[..i + 1], b) ==
      Children(ifaces[..i], b) + if ifaces[i].base == b then [ifaces[i].name] else []
  {
    assert ifaces[..i + 1][..i] == ifaces[..i];
  }

  /** Names that share a base (or its absence), listed without repeats. */
  predicate Siblings(m: Bases, names: seq<string>, base: string) {
    && (forall i :: 0 <= i < |names| ==> names[i] in m && m[names[i]] == base)
    && (forall i, j :: 0 <= i < j < |names| ==> names[i] != names[j])
  }

  lemma NotEmptyName(ctx: Context, name: string)
    requires Built(ctx) && name in ctx.bases
    ensures name != ""
  {
    hide BasesOf, Children;
    BasesOfIs(ctx.ifaces);
    var i :| 0 <= i < |ctx.ifaces| && ctx.ifaces[i] == Interface(name, ctx.bases[name]);
  }

  lemma KidsAre(ctx: Context, name: string)
    requires Built(ctx)
    ensures Siblings(ctx.bases, ChildrenIn(ctx.children, name), name) || name == ""
    ensures name != "" ==> ChildrenIn(ctx.children, name) == Children(ctx.ifaces, name)
    ensures name != "" ==> forall c :: c in ChildrenIn(ctx.children, name) <==> c in ctx.bases && ctx.bases[c] == name
    ensures name == "" ==> ChildrenIn(ctx.children, name) == []
  {
    hide Children, BasesOf;
    if name != "" {
      var kids := ChildrenIn(ctx.children, name);
      forall c ensures c in kids <==> c in ctx.bases && ctx.bases[c] == name { ChildrenOf(ctx.ifaces, name, c); }
      ChildrenAre(ctx.ifaces, name);
      assert forall i :: 0 <= i < |kids| ==> kids[i] in kids;
    }
  }

  lemma ThroughChild(m: Bases, d: string, root: string)
    requires Descends(m, d, root) && d != root
    ensures exists c :: c in m && m[c] == root && Descends(m, d, c)
  {
    var k: nat :| Climbs(m, d, root, k);
    ThroughChildIn(m, d, root, k);
  }

  lemma {:induction false} ThroughChildIn(m: Bases, d: string, root: string, k: nat)
    requires Climbs(m, d, root, k) && d != root
    ensures exists c :: c in m && m[c] == root && Descends(m, d, c)
    decreases k
  {
    if m[d] == root {
      DescendsRefl(m, d);
    } else {
      ThroughChildIn(m, m[d], root, k - 1);
      var c :| c in m && m[c] == root && Descends(m, m[d], c);
      DescendsUnfold(m, d, c);
    }
  }

  // ----- the walk down -----

  /** Every descendant of the root is out already or below something still on the stack. */
  ghost predicate Covered(m: Bases, root: string, out: seq<string>, stack: seq<string>) {
    forall d :: Descends(m, d, root) ==> d in out || exists i :: 0 <= i < |stack| && Descends(m, d, stack[i])
  }

  /** What is on the stack is below the root, and nothing on it is related to anything else there or out. */
  ghost predicate Fresh(m: Bases, root: string, out: seq<string>, stack: seq<string>) {
    && (forall i :: 0 <= i < |stack| ==> Descends(m, stack[i], root))
    && (forall x, i :: x in out && 0 <= i < |stack| ==> !Descends(m, x, stack[i]))
    && (forall i, j :: 0 <= i < |stack| && 0 <= j < |stack| && i != j ==> !Descends(m, stack[i], stack[j]))
  }

  /** DescendantsInclusive: exactly the descendants, each once, the root first. */
  method DescendantsInclusive(ctx: Context, root: string) returns (out: seq<string>)
    requires Built(ctx) && Accepted(ctx.bases) && root in ctx.bases
    ensures forall d :: d in out <==> Descends(ctx.bases, d, root)
    ensures Graph.Distinct(out) && out != [] && out[0] == root
  {
    hide Descends, Built, Accepted, Children, BasesOf, Fresh, Covered;
    ghost var m := ctx.bases;
    out := [];
    var stack := [root];
    WalkStarts(m, root);
    while stack != []
      invariant Fresh(m, root, out, stack) && Covered(m, root, out, stack)
      invariant forall x :: x in out ==> Descends(m, x, root)
      invariant Graph.Distinct(out) && (if out == [] then stack == [root] else out[0] == root)
      decreases m.Keys - set x | x in out
    {
      var cur := stack[|stack| - 1];
      ghost var below, before := stack[..|stack| - 1], out;
      var kids := ChildrenIn(ctx.children, cur);
      assert stack == below + [cur];
      WalkOn(ctx, root, out, below, cur);
      stack := stack[..|stack| - 1];
      out := out + [cur];
      FewerLeft(m, before, cur);
      for i := 0 to |kids|
        invariant stack == below + kids[..i]
      {
        stack := stack + [kids[i]];
      }
      assert kids[..|kids|] == kids;
    }
    WalkEnds(m, root, out);
  }

  lemma FewerLeft(m: Bases, out: seq<string>, cur: string)
    requires cur in m && cur !in out
    ensures (m.Keys - set x | x in out + [cur]) < (m.Keys - set x | x in out)
  {
    assert cur in (m.Keys - set x | x in out) && cur !in (m.Keys - set x | x in out + [cur]);
  }

  lemma WalkStarts(m: Bases, root: string)
    requires root in m
    ensures Fresh(m, root, [], [root]) && Covered(m, root, [], [root])
  {
    DescendsRefl(m, root);
    forall d | Descends(m, d, root) ensures exists i :: 0 <= i < |[root]| && Descends(m, d, [root][i]) {
      assert [root][0] == root;
    }
  }

  lemma WalkEnds(m: Bases, root: string, out: seq<string>)
    requires Covered(m, root, out, []) && Fresh(m, root, out, [])
    ensures forall d :: Descends(m, d, root) ==> d in out
  {
  }

  /** Replacing an interface on the stack by its children keeps both. */
  lemma WalkOn(ctx: Context, root: string, out: seq<string>, below: seq<string>, cur: string)
    requires Built(ctx) && Accepted(ctx.bases)
    requires Fresh(ctx.bases, root, out, below + [cur]) && Covered(ctx.bases, root, out, below + [cur])
    ensures cur !in out && Descends(ctx.bases, cur, root)
    ensures Fresh(ctx.bases, root, out + [cur], below + ChildrenIn(ctx.children, cur))
    ensures Covered(ctx.bases, root, out + [cur], below + ChildrenIn(ctx.children, cur))
  {
    hide Descends, Built, Accepted, Children, BasesOf, Fresh, Covered;
    var m, kids := ctx.bases, ChildrenIn(ctx.children, cur);
    assert Descends(m, cur, root) && cur !in out by { FreshTop(m, root, out, below, cur); }
    NotEmptyName(ctx, cur);
    KidsAre(ctx, cur);
    FreshKids(m, root, out, below, cur, kids);
    CoveredKids(m, root, out, below, cur, kids);
  }

  lemma FreshTop(m: Bases, root: string, out: seq<string>, below: seq<string>, cur: string)
    requires Fresh(m, root, out, below + [cur])
    ensures Descends(m, cur, root) && cur !in out
    ensures Fresh(m, root, out, below)
    ensures forall x :: x in out ==> !Descends(m, x, cur)
    ensures forall i :: 0 <= i < |below| ==> !Descends(m, below[i], cur) && !Descends(m, cur, below[i])
  {
    hide Descends;
    var stack := below + [cur];
    assert stack[|below|] == cur && forall i :: 0 <= i < |below| ==> stack[i] == below[i];
    DescendsRefl(m, cur);
  }

  lemma FreshKids(m: Bases, root: string, out: seq<string>, below: seq<string>, cur: string, kids: seq<string>)
    requires Accepted(m) && Fresh(m, root, out, below + [cur]) && Siblings(m, kids, cur) && cur != ""
    ensures Fresh(m, root, out + [cur], below + kids)
  {
    hide Descends, Accepted;
    FreshTop(m, root, out, below, cur);
    forall i | 0 <= i < |kids|
      ensures Descends(m, kids[i], cur) && Descends(m, kids[i], root) && !Descends(m, cur, kids[i])
    {
      NotBelowChild(m, cur, kids[i]);
      DescendsRefl(m, cur);
      DescendsUnfold(m, kids[i], cur);
      DescendsTrans(m, kids[i], cur, root);
    }
    forall x, i | x in out && 0 <= i < |kids| ensures !Descends(m, x, kids[i]) {
      if Descends(m, x, kids[i]) { DescendsTrans(m, x, kids[i], cur); }
    }
    forall i, j | 0 <= i < |below| && 0 <= j < |kids|
      ensures !Descends(m, below[i], kids[j]) && !Descends(m, kids[j], below[i])
    {
      if Descends(m, below[i], kids[j]) { DescendsTrans(m, below[i], kids[j], cur); }
      DescendsUnfold(m, kids[j], below[i]);
    }
    forall i, j | 0 <= i < |kids| && 0 <= j < |kids| && i != j ensures !Descends(m, kids[i], kids[j]) {
      NotBelow(m, kids[i], kids[j]);
    }
  }

  lemma CoveredKids(m: Bases, root: string, out: seq<string>, below: seq<string>, cur: string, kids: seq<string>)
    requires Covered(m, root, out, below + [cur])
    requires forall c :: c in kids <==> c in m && m[c] == cur
    ensures Covered(m, root, out + [cur], below + kids)
  {
    hide Descends;
    var stack, stack' := below + [cur], below + kids;
    forall d | Descends(m, d, root)
      ensures d in out + [cur] || exists i :: 0 <= i < |stack'| && Descends(m, d, stack'[i])
    {
      if d !in out && d != cur {
        var i :| 0 <= i < |stack| && Descends(m, d, stack[i]);
        if i < |below| {
          assert stack'[i] == stack[i];
        } else {
          ThroughChild(m, d, cur);
          var c :| c in m && m[c] == cur && Descends(m, d, c);
          var j :| 0 <= j < |kids| && kids[j] == c;
          assert stack'[|below| + j] == c;
        }
      }
    }
  }
}
