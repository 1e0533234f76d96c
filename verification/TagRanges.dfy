/**
  Tag blocks: pre-order numbering of an interface forest, the range of each subtree, and the
  one-comparison test that must agree with the walk over descendants.
 */
module TagRanges {
  import opened Forest

  datatype TagIndex = TagIndex(localIndex: nat, subtreeMin: nat, subtreeMax: nat)

  type Table = map<string, TagIndex>

  predicate InRange(range: TagIndex, index: nat) {
    range.subtreeMin <= index <= range.subtreeMax
  }

  /** Some interface of s has this index. */
  ghost predicate Taken(s: set<string>, out: Table, i: int) {
    exists d :: d in s && d in out && out[d].localIndex == i
  }

  /** One interface's range holds another one's index exactly when the other descends from it. */
  ghost predicate RangesMatch(m: Bases, s: set<string>, t: set<string>, out: Table)
    requires s <= out.Keys && t <= out.Keys
  {
    forall b, d :: b in s && d in t ==> (InRange(out[b], out[d].localIndex) <==> Descends(m, d, b))
  }

  /** The interfaces s are numbered lo, ..., hi - 1, and their ranges say who descends from whom. */
  ghost predicate Numbered(m: Bases, s: set<string>, out: Table, lo: nat, hi: nat) {
    && s <= out.Keys
    && hi == lo + |s|
    && (forall d :: d in s ==> lo <= out[d].localIndex == out[d].subtreeMin <= out[d].subtreeMax < hi)
    && (forall i :: lo <= i < hi ==> Taken(s, out, i))
    && RangesMatch(m, s, s, out)
  }

  lemma NumberedNothing(m: Bases, out: Table, lo: nat)
    ensures Numbered(m, {}, out, lo, lo)
  {
  }

  /** No interface of one set descends from an interface of the other. */
  ghost predicate Apart(m: Bases, s: set<string>, t: set<string>) {
    && s !! t
    && forall a, b :: a in s && b in t ==> !Descends(m, a, b) && !Descends(m, b, a)
  }

  /** Blocks of unrelated interfaces go one after the other. */
  lemma NumberedAfter(m: Bases, s: set<string>, t: set<string>, old': Table, out: Table, lo: nat, mid: nat, hi: nat)
    requires Numbered(m, s, old', lo, mid) && Numbered(m, t, out, mid, hi) && Apart(m, s, t)
    requires forall d :: d in s ==> d in out && out[d] == old'[d]
    ensures Numbered(m, s + t, out, lo, hi)
  {
    hide Descends;
    assert |s + t| == |s| + |t|;
    forall i | lo <= i < hi ensures Taken(s + t, out, i) {
      if i < mid {
        assert Taken(s, old', i);
      } else {
        assert Taken(t, out, i);
      }
    }
    forall b, d | b in s + t && d in s + t
      ensures InRange(out[b], out[d].localIndex) <==> Descends(m, d, b)
    {
      if b in s && d in s {
        assert InRange(old'[b], old'[d].localIndex) <==> Descends(m, d, b);
      }
    }
  }

  /** The root of a subtree goes in front of everything below it. */
  lemma NumberedRoot(m: Bases, root: string, s: set<string>, old': Table, out: Table, lo: nat, hi: nat)
    requires Numbered(m, s, old', lo + 1, hi) && root !in s && root in m
    requires out == old'[root := TagIndex(lo, lo, hi - 1)]
    requires forall d :: d in s ==> Descends(m, d, root) && !Descends(m, root, d)
    ensures Numbered(m, s + {root}, out, lo, hi)
  {
    hide Descends;
    DescendsRefl(m, root);
    assert |s + {root}| == |s| + 1;
    forall i | lo <= i < hi ensures Taken(s + {root}, out, i) {
      if i > lo {
        assert Taken(s, old', i);
      } else {
        assert out[root].localIndex == i;
      }
    }
    forall b, d | b in s + {root} && d in s + {root}
      ensures InRange(out[b], out[d].localIndex) <==> Descends(m, d, b)
    {
      if b in s && d in s {
        assert InRange(old'[b], old'[d].localIndex) <==> Descends(m, d, b);
      }
    }
  }

  /** Entries were added for s, and no other entry changed. */
  predicate Extends(old': Table, out: Table, s: set<string>) {
    out.Keys == old'.Keys + s && forall d :: d in old' && d !in s ==> out[d] == old'[d]
  }

  lemma ExtendsAgain(a: Table, b: Table, c: Table, s: set<string>, t: set<string>)
    requires Extends(a, b, s) && Extends(b, c, t)
    ensures Extends(a, c, s + t)
  {
  }

  lemma ExtendsByOne(out: Table, name: string, index: TagIndex)
    ensures Extends(out, out, {}) && Extends(out, out[name := index], {name})
  {
  }

  lemma NumberedSize(m: Bases, s: set<string>, out: Table, lo: nat, hi: nat)
    requires Numbered(m, s, out, lo, hi)
    ensures hi == lo + |s| && s <= out.Keys
  {
  }

  // ----- the walk -----

  /** What lies below the first n names of a list. */
  ghost function BelowAll(m: Bases, names: seq<string>, n: nat): set<string>
    requires n <= |names|
  {
    set d | d in m && (exists i :: 0 <= i < n && Descends(m, d, names[i]))
  }

  lemma BelowNone(m: Bases, names: seq<string>)
    ensures BelowAll(m, names, 0) == {}
  {
  }

  lemma BelowAllStep(m: Bases, names: seq<string>, n: nat)
    requires n < |names|
    ensures BelowAll(m, names, n + 1) == BelowAll(m, names, n) + Below(m, names[n])
  {
    hide Descends;
  }

  lemma SiblingApart(m: Bases, names: seq<string>, base: string, n: nat)
    requires Accepted(m) && Siblings(m, names, base) && n < |names|
    ensures Apart(m, BelowAll(m, names, n), Below(m, names[n]))
  {
    var s, t := BelowAll(m, names, n), Below(m, names[n]);
    forall a | a in s ensures a !in t {
      var i :| 0 <= i < n && Descends(m, a, names[i]);
      SiblingsApart(m, names[i], names[n]);
      assert a in Below(m, names[i]);
    }
    forall a, b | a in s && b in t ensures !Descends(m, a, b) && !Descends(m, b, a) {
      var i :| 0 <= i < n && Descends(m, a, names[i]);
      SiblingsApart(m, names[i], names[n]);
      assert a in Below(m, names[i]) && b !in Below(m, names[i]) && a !in t;
      if Descends(m, a, b) { DescendsTrans(m, a, b, names[n]); }
      if Descends(m, b, a) { DescendsTrans(m, b, a, names[i]); }
    }
  }

  /** A subtree is its root and what lies below the root's children. */
  lemma SubtreeIs(m: Bases, names: seq<string>, root: string)
    requires Accepted(m) && root in m && root != ""
    requires forall c :: c in names <==> c in m && m[c] == root
    ensures root !in BelowAll(m, names, |names|)
    ensures Below(m, root) == BelowAll(m, names, |names|) + {root}
    ensures forall d :: d in BelowAll(m, names, |names|) ==> Descends(m, d, root) && !Descends(m, root, d)
  {
    var s := BelowAll(m, names, |names|);
    forall d | d in s ensures Descends(m, d, root) && !Descends(m, root, d) {
      var i :| 0 <= i < |names| && Descends(m, d, names[i]);
      assert names[i] in names;
      NotBelowChild(m, root, names[i]);
      DescendsRefl(m, root);
      DescendsUnfold(m, names[i], root);
      DescendsTrans(m, d, names[i], root);
      if Descends(m, root, d) { DescendsTrans(m, root, d, names[i]); }
    }
    DescendsRefl(m, root);
    forall d | d in Below(m, root) && d != root ensures d in s {
      ThroughChild(m, d, root);
      var c :| c in m && m[c] == root && Descends(m, d, c);
      var i :| 0 <= i < |names| && names[i] == c;
    }
  }

  lemma ChildIsSmaller(m: Bases, c: string, root: string)
    requires Accepted(m) && c in m && m[c] == root && root in m && root != ""
    ensures Below(m, c) < Below(m, root)
  {
    hide Descends;
    NotBelowChild(m, root, c);
    DescendsRefl(m, root);
    DescendsUnfold(m, c, root);
    forall d | d in Below(m, c) ensures d in Below(m, root) { DescendsTrans(m, d, c, root); }
    assert root in Below(m, root) && root !in Below(m, c);
  }

  lemma NumberedGrows(m: Bases, root: string, out: Table, lo: nat, hi: nat)
    requires Numbered(m, Below(m, root), out, lo, hi) && root in m
    ensures lo < hi
  {
    DescendsRefl(m, root);
    assert root in Below(m, root);
  }

  lemma RootsAre(ctx: Context, n: nat)
    requires Built(ctx) && n <= |ctx.ifaces|
    ensures Siblings(ctx.bases, Children(ctx.ifaces[..n], ""), "")
  {
    hide Children, BasesOf;
    var roots := Children(ctx.ifaces[..n], "");
    ChildrenAre(ctx.ifaces[..n], "");
    BasesOfIs(ctx.ifaces);
    forall i | 0 <= i < |roots| ensures roots[i] in ctx.bases && ctx.bases[roots[i]] == "" {
      assert roots[i] in roots;
      assert Interface(roots[i], "") in ctx.ifaces[..n];
    }
  }

  lemma BelowAllPrefix(m: Bases, names: seq<string>, more: seq<string>)
    ensures BelowAll(m, names + more, |names|) == BelowAll(m, names, |names|)
  {
    assert forall i :: 0 <= i < |names| ==> (names + more)[i] == names[i];
  }

  lemma BuiltIs(ctx: Context)
    requires Built(ctx)
    ensures Distinct(ctx.ifaces) && ctx.bases == BasesOf(ctx.ifaces)
  {
  }

  /** Everything is below some root. */
  lemma RootAbove(ctx: Context, d: string) returns (i: nat)
    requires Built(ctx) && Accepted(ctx.bases) && d in ctx.bases
    ensures i < |Children(ctx.ifaces, "")| && Descends(ctx.bases, d, Children(ctx.ifaces, "")[i])
  {
    hide Children, BasesOf, Descends;
    var m, roots := ctx.bases, Children(ctx.ifaces, "");
    var r :| Descends(m, d, r) && m[r] == "";
    ChildrenOf(ctx.ifaces, "", r);
    i :| 0 <= i < |roots| && roots[i] == r;
  }

  lemma RootsReachAll(ctx: Context)
    requires Built(ctx) && Accepted(ctx.bases)
    ensures BelowAll(ctx.bases, Children(ctx.ifaces, ""), |Children(ctx.ifaces, "")|) == ctx.bases.Keys
    ensures |ctx.bases.Keys| == |ctx.ifaces|
  {
    hide Children, BasesOf, Descends, Built, Accepted, Distinct;
    var m, roots := ctx.bases, Children(ctx.ifaces, "");
    BuiltIs(ctx);
    BasesOfSize(ctx.ifaces);
    forall d | d in m ensures d in BelowAll(m, roots, |roots|) { var i := RootAbove(ctx, d); }
  }

  /** One more sibling's subtree has been numbered. */
  lemma AddSibling(m: Bases, names: seq<string>, base: string, n: nat, old': Table, out: Table, lo: nat, mid: nat, hi: nat)
    requires Accepted(m) && Siblings(m, names, base) && n < |names|
    requires Numbered(m, BelowAll(m, names, n), old', lo, mid) && Numbered(m, Below(m, names[n]), out, mid, hi)
    requires Extends(old', out, Below(m, names[n]))
    ensures Numbered(m, BelowAll(m, names, n + 1), out, lo, hi) && mid < hi
    ensures BelowAll(m, names, n + 1) == BelowAll(m, names, n) + Below(m, names[n])
  {
    hide Descends, Below, BelowAll, Accepted, RangesMatch;
    SiblingApart(m, names, base, n);
    BelowAllStep(m, names, n);
    NumberedGrows(m, names[n], out, mid, hi);
    NumberedAfter(m, BelowAll(m, names, n), Below(m, names[n]), old', out, lo, mid, hi);
  }

  // ----- siblings keep their order -----

  /** The first n of these siblings are numbered in this order. */
  predicate InOrder(names: seq<string>, n: nat, out: Table)
    requires n <= |names|
  {
    && (forall i :: 0 <= i < n ==> names[i] in out)
    && forall i, j :: 0 <= i < j < n ==> out[names[i]].subtreeMax < out[names[j]].subtreeMin
  }

  /** Under each of these interfaces the children are numbered in declaration order. */
  ghost predicate ChildrenInOrder(ctx: Context, s: set<string>, out: Table) {
    forall b :: b in s ==> InOrder(Children(ctx.ifaces, b), |Children(ctx.ifaces, b)|, out)
  }

  /** The first n siblings and everything below them are numbered in order, below the next free index. */
  ghost predicate Laid(ctx: Context, names: seq<string>, n: nat, out: Table, next: nat)
    requires n <= |names|
  {
    && InOrder(names, n, out) && (forall i :: 0 <= i < n ==> out[names[i]].subtreeMax < next)
    && ChildrenInOrder(ctx, BelowAll(ctx.bases, names, n), out)
  }

  lemma LaidIs(ctx: Context, names: seq<string>, out: Table, next: nat)
    requires Laid(ctx, names, |names|, out, next)
    ensures InOrder(names, |names|, out) && ChildrenInOrder(ctx, BelowAll(ctx.bases, names, |names|), out)
  {
  }

  lemma LaidPrefix(ctx: Context, names: seq<string>, more: seq<string>, out: Table, next: nat)
    requires Laid(ctx, names, |names|, out, next)
    ensures Laid(ctx, names + more, |names|, out, next)
  {
    hide ChildrenInOrder, BelowAll;
    BelowAllPrefix(ctx.bases, names, more);
    assert forall i :: 0 <= i < |names| ==> (names + more)[i] == names[i];
  }

  lemma LaidNone(ctx: Context, names: seq<string>, out: Table, next: nat)
    ensures Laid(ctx, names, 0, out, next)
  {
    BelowNone(ctx.bases, names);
  }

  /** Children of what lies below some names lie below them, too. */
  lemma ChildIsBelow(ctx: Context, names: seq<string>, n: nat, b: string, i: nat)
    requires Built(ctx) && n <= |names| && b in BelowAll(ctx.bases, names, n) && i < |Children(ctx.ifaces, b)|
    ensures Children(ctx.ifaces, b)[i] in BelowAll(ctx.bases, names, n)
  {
    hide Children, BasesOf, Descends;
    var m, c := ctx.bases, Children(ctx.ifaces, b)[i];
    ChildrenOf(ctx.ifaces, b, c);
    var k :| 0 <= k < n && Descends(m, b, names[k]);
    NotEmptyName(ctx, b);
    DescendsUnfold(m, c, names[k]);
  }

  /** Numbering something else leaves an order alone. */
  lemma InOrderStays(names: seq<string>, n: nat, old': Table, out: Table, t: set<string>)
    requires n <= |names| && InOrder(names, n, old') && Extends(old', out, t)
    requires forall i :: 0 <= i < n ==> names[i] !in t
    ensures InOrder(names, n, out)
  {
  }

  lemma LaidStays(ctx: Context, names: seq<string>, n: nat, old': Table, out: Table, t: set<string>, next: nat, next': nat)
    requires Built(ctx) && n <= |names| && Laid(ctx, names, n, old', next) && Extends(old', out, t) && next <= next'
    requires BelowAll(ctx.bases, names, n) !! t && forall i :: 0 <= i < n ==> names[i] in ctx.bases
    ensures Laid(ctx, names, n, out, next')
  {
    hide Children, Built, BelowAll, Extends, InOrder;
    forall i | 0 <= i < n ensures names[i] !in t && names[i] in old' && names[i] in out && out[names[i]] == old'[names[i]] {
      SelfIsBelow(ctx.bases, names, n, i);
      EntryStays(names, n, old', out, t, i);
    }
    InOrderStays(names, n, old', out, t);
    forall b | b in BelowAll(ctx.bases, names, n)
      ensures InOrder(Children(ctx.ifaces, b), |Children(ctx.ifaces, b)|, out)
    {
      forall i | 0 <= i < |Children(ctx.ifaces, b)| ensures Children(ctx.ifaces, b)[i] !in t {
        ChildIsBelow(ctx, names, n, b, i);
      }
      InOrderStays(Children(ctx.ifaces, b), |Children(ctx.ifaces, b)|, old', out, t);
    }
  }

  lemma SelfIsBelow(m: Bases, names: seq<string>, n: nat, i: nat)
    requires i < n <= |names| && names[i] in m
    ensures names[i] in BelowAll(m, names, n)
  {
    DescendsRefl(m, names[i]);
  }

  lemma EntryStays(names: seq<string>, n: nat, old': Table, out: Table, t: set<string>, i: nat)
    requires i < n <= |names| && InOrder(names, n, old') && Extends(old', out, t) && names[i] !in t
    ensures names[i] in old' && names[i] in out && out[names[i]] == old'[names[i]]
  {
  }

  /** One more sibling's subtree comes after the others. */
  lemma LaidNext(ctx: Context, names: seq<string>, base: string, n: nat, old': Table, out: Table, mid: nat, hi: nat)
    requires Built(ctx) && Accepted(ctx.bases) && Siblings(ctx.bases, names, base) && n < |names|
    requires Laid(ctx, names, n, old', mid) && Extends(old', out, Below(ctx.bases, names[n]))
    requires Numbered(ctx.bases, Below(ctx.bases, names[n]), out, mid, hi)
    requires ChildrenInOrder(ctx, Below(ctx.bases, names[n]), out)
    ensures Laid(ctx, names, n + 1, out, hi)
  {
    hide Descends, Children, Built, Below, BelowAll, Accepted, Extends, RangesMatch;
    var m := ctx.bases;
    SiblingApart(m, names, base, n);
    BelowAllStep(m, names, n);
    NumberedGrows(m, names[n], out, mid, hi);
    LaidStays(ctx, names, n, old', out, Below(m, names[n]), mid, mid);
    RootIsBelow(m, names[n]);
    assert mid <= out[names[n]].subtreeMin && out[names[n]].subtreeMax < hi;
  }

  lemma RootIsBelow(m: Bases, root: string)
    requires root in m
    ensures root in Below(m, root)
  {
    DescendsRefl(m, root);
  }

  /** A root in front of its laid-out children completes its subtree. */
  lemma LaidRoot(ctx: Context, root: string, names: seq<string>, old': Table, index: TagIndex, next: nat)
    requires Built(ctx) && Accepted(ctx.bases) && root in ctx.bases && root != ""
    requires names == Children(ctx.ifaces, root) && Siblings(ctx.bases, names, root)
    requires Laid(ctx, names, |names|, old', next)
    requires forall c :: c in names <==> c in ctx.bases && ctx.bases[c] == root
    ensures ChildrenInOrder(ctx, Below(ctx.bases, root), old'[root := index])
  {
    hide Descends, Children, Built, BelowAll, Accepted, Extends;
    SubtreeIs(ctx.bases, names, root);
    ExtendsByOne(old', root, index);
    LaidStays(ctx, names, |names|, old', old'[root := index], {root}, next, next);
  }

  /** The state of the recursive walk: the next free index and the table so far. */
  class TagWalk {
    const ctx: Context
    var nextIndex: nat
    var out: Table

    constructor (ctx: Context)
      ensures this.ctx == ctx && nextIndex == 0 && out == map[]
    {
      this.ctx, nextIndex, out := ctx, 0, map[];
    }

    /** AssignTagIndicesRec: numbers the subtree of one interface from the next free index on. */
    method Assign(name: string) returns (maxIndex: nat)
      requires Built(ctx) && Accepted(ctx.bases) && name in ctx.bases
      modifies this
      ensures Numbered(ctx.bases, Below(ctx.bases, name), out, old(nextIndex), nextIndex)
      ensures Extends(old(out), out, Below(ctx.bases, name))
      ensures maxIndex == nextIndex - 1
      ensures ChildrenInOrder(ctx, Below(ctx.bases, name), out)
      decreases Below(ctx.bases, name)
    {
      hide Descends, Numbered, Children, BasesOf, Below, BelowAll, Accepted, Built, Extends, Laid, ChildrenInOrder, Siblings, ChildrenIn;
      ghost var m := ctx.bases;
      var self := nextIndex;
      nextIndex := nextIndex + 1;
      maxIndex := self;
      var kids := ChildrenIn(ctx.children, name);
      KidsAre(ctx, name);
      NumberedNothing(m, out, self + 1);
      BelowNone(m, kids);
      ExtendsByOne(out, name, TagIndex(self, self, self));
      NotEmptyName(ctx, name);
      LaidNone(ctx, kids, out, self + 1);
      for i := 0 to |kids|
        invariant Numbered(m, BelowAll(m, kids, i), out, self + 1, nextIndex)
        invariant Extends(old(out), out, BelowAll(m, kids, i))
        invariant maxIndex == nextIndex - 1
        invariant Laid(ctx, kids, i, out, nextIndex)
      {
        ghost var before, mid := out, nextIndex;
        assert kids[i] in kids;
        ChildIsSmaller(m, kids[i], name);
        var last := Assign(kids[i]);
        maxIndex := if last > maxIndex then last else maxIndex;
        AddSibling(m, kids, name, i, before, out, self + 1, mid, nextIndex);
        LaidNext(ctx, kids, name, i, before, out, mid, nextIndex);
        ExtendsAgain(old(out), before, out, BelowAll(m, kids, i), Below(m, kids[i]));
      }
      ghost var before := out;
      out := out[name := TagIndex(self, self, maxIndex)];
      SubtreeIs(m, kids, name);
      ExtendsByOne(before, name, TagIndex(self, self, maxIndex));
      LaidRoot(ctx, name, kids, before, TagIndex(self, self, maxIndex), nextIndex);
      NumberedRoot(m, name, BelowAll(m, kids, |kids|), before, out, self, nextIndex);
      ExtendsAgain(old(out), before, out, BelowAll(m, kids, |kids|), {name});
    }

    /** ComputeTagIndices: one walk from each interface without a base. */
    method Compute() returns (table: Table)
      requires Built(ctx) && Accepted(ctx.bases) && nextIndex == 0 && out == map[]
      modifies this
      ensures Numbered(ctx.bases, ctx.bases.Keys, table, 0, |ctx.ifaces|)
      ensures table.Keys == ctx.bases.Keys
      ensures ChildrenInOrder(ctx, ctx.bases.Keys, table)
      ensures InOrder(Children(ctx.ifaces, ""), |Children(ctx.ifaces, "")|, table)
    {
      hide Descends, Numbered, Children, BasesOf, Below, BelowAll, Accepted, Built, Laid, ChildrenInOrder, InOrder;
      ghost var m := ctx.bases;
      ghost var roots: seq<string> := [];
      NumberedNothing(m, out, 0);
      BelowNone(m, roots);
      assert ctx.ifaces[..0] == [];
      ChildrenOfNone();
      LaidNone(ctx, roots, out, 0);
      for i := 0 to |ctx.ifaces|
        invariant roots == Children(ctx.ifaces[..i], "")
        invariant Numbered(m, BelowAll(m, roots, |roots|), out, 0, nextIndex)
        invariant out.Keys == BelowAll(m, roots, |roots|)
        invariant Laid(ctx, roots, |roots|, out, nextIndex)
      {
        ChildrenStep(ctx.ifaces, i, "");
        if ctx.ifaces[i].base == "" {
          var name := ctx.ifaces[i].name;
          ghost var before, mid, n := out, nextIndex, |roots|;
          BelowAllPrefix(m, roots, [name]);
          LaidPrefix(ctx, roots, [name], out, nextIndex);
          roots := roots + [name];
          RootsAre(ctx, i + 1);
          assert roots[n] == name;
          var last := Assign(name);
          AddSibling(m, roots, "", n, before, out, 0, mid, nextIndex);
          LaidNext(ctx, roots, "", n, before, out, mid, nextIndex);
        }
      }
      assert ctx.ifaces[..|ctx.ifaces|] == ctx.ifaces;
      RootsReachAll(ctx);
      NumberedSize(m, m.Keys, out, 0, nextIndex);
      LaidIs(ctx, roots, out, nextIndex);
      table := out;
    }
  }

  // ----- the test -----

  const TAGS: nat := 0x1_0000
  const WORD: nat := 0x1_0000_0000

  /** A tag: the sum of the block's base and an index, cut to 16 bits. */
  function Tag(base: nat, index: nat): (t: nat)
    ensures t < TAGS
  {
    (base + index) % TAGS
  }

  /** TagRange::Contains: one comparison of 32-bit differences. */
  predicate Contains(first: nat, last: nat, tag: nat) {
    (tag - first) % WORD <= (last - first) % WORD
  }

  /** Does b's range accept a value that carries d's tag? */
  predicate Accepts(out: Table, base: nat, b: string, d: string)
    requires b in out && d in out
  {
    Contains(Tag(base, out[b].subtreeMin), Tag(base, out[b].subtreeMax), Tag(base, out[d].localIndex))
  }

  /** Even a block that wraps past the last tag keeps its ranges apart. */
  lemma ContainsIsInRange(base: nat, lo: nat, hi: nat, x: nat)
    requires base < 0x1_0000 && lo <= hi < 0x1_0000 && x < 0x1_0000
    ensures Contains(Tag(base, lo), Tag(base, hi), Tag(base, x)) <==> lo <= x <= hi
  {
    TagIs(base, lo);
    TagIs(base, hi);
    TagIs(base, x);
    WordDifference(Tag(base, x) - Tag(base, lo));
    WordDifference(Tag(base, hi) - Tag(base, lo));
  }

  lemma TagIs(base: nat, i: nat)
    requires base < TAGS && i < TAGS
    ensures Tag(base, i) == if base + i < TAGS then base + i else base + i - TAGS
  {
  }

  lemma WordDifference(d: int)
    requires -(TAGS as int) < d < TAGS
    ensures d % WORD == if d >= 0 then d else d + WORD
  {
  }

  /**
    The range test agrees with descent for every pair exactly when the module's interfaces fit
    into the 16 bits of a tag, wherever the block starts.
   */
  lemma TagRangesEqualDescendants(m: Bases, out: Table, base: nat)
    requires Accepted(m) && Numbered(m, m.Keys, out, 0, |m.Keys|) && base < 0x1_0000
    ensures |m.Keys| <= 0x1_0000 <==> forall b, d :: b in m && d in m ==> (Accepts(out, base, b, d) <==> Descends(m, d, b))
  {
    hide Descends, Tag, Contains, Numbered, Accepted;
    NumberedSize(m, m.Keys, out, 0, |m.Keys|);
    if |m.Keys| <= TAGS {
      forall b, d | b in m && d in m ensures Accepts(out, base, b, d) <==> Descends(m, d, b) {
        NumberedPair(m, m.Keys, out, 0, |m.Keys|, b, d);
        ContainsIsInRange(base, out[b].subtreeMin, out[b].subtreeMax, out[d].localIndex);
      }
    } else {
      TooManyTags(m, out, base);
    }
  }

  /** What a numbering says of two interfaces. */
  lemma NumberedPair(m: Bases, s: set<string>, out: Table, lo: nat, hi: nat, b: string, d: string)
    requires Numbered(m, s, out, lo, hi) && b in s && d in s
    ensures b in out && d in out && lo <= out[b].localIndex == out[b].subtreeMin <= out[b].subtreeMax < hi
    ensures lo <= out[d].localIndex < hi
    ensures InRange(out[b], out[d].localIndex) <==> Descends(m, d, b)
  {
    hide Descends;
  }

  lemma NumberedTaken(m: Bases, s: set<string>, out: Table, lo: nat, hi: nat, i: nat) returns (d: string)
    requires Numbered(m, s, out, lo, hi) && lo <= i < hi
    ensures d in s && d in out && out[d].localIndex == i
  {
    hide Descends;
    assert Taken(s, out, i);
    d :| d in s && d in out && out[d].localIndex == i;
  }

  lemma SameTag(base: nat)
    ensures Tag(base, TAGS) == Tag(base, 0)
  {
  }

  lemma FirstIsIn(first: nat, last: nat)
    ensures Contains(first, last, first)
  {
  }

  /** With one interface too many, the first one passes for the last one's kind. */
  lemma TooManyTags(m: Bases, out: Table, base: nat)
    requires Accepted(m) && Numbered(m, m.Keys, out, 0, |m.Keys|) && base < 0x1_0000 < |m.Keys|
    ensures exists b, d :: b in m && d in m && Accepts(out, base, b, d) && !Descends(m, d, b)
  {
    hide Descends, Tag, Contains, Numbered, Accepted;
    var d := NumberedTaken(m, m.Keys, out, 0, |m.Keys|, 0);
    var b := NumberedTaken(m, m.Keys, out, 0, |m.Keys|, TAGS);
    NumberedPair(m, m.Keys, out, 0, |m.Keys|, b, d);
    SameTag(base);
    FirstIsIn(Tag(base, 0), Tag(base, out[b].subtreeMax));
    assert Accepts(out, base, b, d) && !Descends(m, d, b);
  }

  /** The local indices are a bijection onto 0, ..., n - 1. */
  lemma IndicesAreDistinct(m: Bases, out: Table, a: string, b: string)
    requires Accepted(m) && Numbered(m, m.Keys, out, 0, |m.Keys|) && a in m && b in m
    ensures out[a].localIndex < |m.Keys|
    ensures out[a].localIndex == out[b].localIndex ==> a == b
  {
    hide Descends, Numbered, Accepted;
    NumberedPair(m, m.Keys, out, 0, |m.Keys|, a, b);
    NumberedPair(m, m.Keys, out, 0, |m.Keys|, b, a);
    if out[a].localIndex == out[b].localIndex { DescendsAntisymmetric(m, a, b); }
  }
}
