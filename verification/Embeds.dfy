/**
  The complete-type graph of a module's structs and unions: who must be defined before whom,
  and the cycles the parser rejects.
 */
module Embeds {
  import opened Ast

  /** A struct or union as both sorts see it: file position, generated name, member types. */
  datatype Embed = Embed(declIndex: int, key: string, types: seq<TypeSpec>)

  function OfStruct(s: StructDecl): Embed {
    Embed(s.declIndex, StructKey(s), seq(|s.fields|, i requires 0 <= i < |s.fields| => s.fields[i].fieldType))
  }

  function OfUnion(u: UnionDecl): Embed {
    Embed(u.declIndex, UnionKey(u), seq(|u.fields|, i requires 0 <= i < |u.fields| => u.fields[i].fieldType))
  }

  function OfStructs(structs: seq<StructDecl>): seq<Embed> {
    seq(|structs|, i requires 0 <= i < |structs| => OfStruct(structs[i]))
  }

  function OfUnions(unions: seq<UnionDecl>): seq<Embed> {
    seq(|unions|, i requires 0 <= i < |unions| => OfUnion(unions[i]))
  }

  function NestedStructs(interfaces: seq<Interface>): seq<Embed> {
    if interfaces == [] then [] else OfStructs(interfaces[0].structs) + NestedStructs(interfaces[1..])
  }

  function NestedUnions(interfaces: seq<Interface>): seq<Embed> {
    if interfaces == [] then [] else OfUnions(interfaces[0].unions) + NestedUnions(interfaces[1..])
  }

  function NestedBoth(interfaces: seq<Interface>): seq<Embed> {
    if interfaces == [] then []
    else OfStructs(interfaces[0].structs) + OfUnions(interfaces[0].unions) + NestedBoth(interfaces[1..])
  }

  /** The generator's list: all structs, then all unions, nested ones last in each. */
  function GeneratorOrder(m: Module): seq<Embed> {
    OfStructs(m.structs) + NestedStructs(m.interfaces) + (OfUnions(m.unions) + NestedUnions(m.interfaces))
  }

  /** The parser's list: top level first, then interface by interface. */
  function ParserOrder(m: Module): seq<Embed> {
    OfStructs(m.structs) + OfUnions(m.unions) + NestedBoth(m.interfaces)
  }

  lemma {:induction false} NestedSame(interfaces: seq<Interface>)
    ensures forall e :: e in NestedBoth(interfaces) <==> e in NestedStructs(interfaces) || e in NestedUnions(interfaces)
  {
    if interfaces != [] { NestedSame(interfaces[1..]); }
  }

  lemma OrdersSame(m: Module)
    ensures forall e :: e in ParserOrder(m) <==> e in GeneratorOrder(m)
  {
    NestedSame(m.interfaces);
  }

  lemma {:induction false} NestedHave(interfaces: seq<Interface>, e: Embed)
    ensures e in NestedStructs(interfaces) <==>
      exists i, k :: 0 <= i < |interfaces| && 0 <= k < |interfaces[i].structs| && IsStruct(e, interfaces[i].structs[k])
    ensures e in NestedUnions(interfaces) <==>
      exists i, k :: 0 <= i < |interfaces| && 0 <= k < |interfaces[i].unions| && IsUnion(e, interfaces[i].unions[k])
  {
    if interfaces != [] {
      NestedHave(interfaces[1..], e);
      StructsHave(interfaces[0].structs, e);
      UnionsHave(interfaces[0].unions, e);
      if i, k :| 0 <= i < |interfaces[1..]| && 0 <= k < |interfaces[1..][i].structs| && IsStruct(e, interfaces[1..][i].structs[k]) {
        assert IsStruct(e, interfaces[i + 1].structs[k]);
      }
      if i, k :| 0 <= i < |interfaces[1..]| && 0 <= k < |interfaces[1..][i].unions| && IsUnion(e, interfaces[1..][i].unions[k]) {
        assert IsUnion(e, interfaces[i + 1].unions[k]);
      }
      if i, k :| 0 <= i < |interfaces| && 0 <= k < |interfaces[i].structs| && IsStruct(e, interfaces[i].structs[k]) {
        if i > 0 { assert IsStruct(e, interfaces[1..][i - 1].structs[k]); }
      }
      if i, k :| 0 <= i < |interfaces| && 0 <= k < |interfaces[i].unions| && IsUnion(e, interfaces[i].unions[k]) {
        if i > 0 { assert IsUnion(e, interfaces[1..][i - 1].unions[k]); }
      }
    }
  }

  /** The struct's position, its generated name, and the types of all its fields. */
  predicate IsStruct(e: Embed, s: StructDecl) {
    && e.declIndex == s.declIndex && e.key == Mangle(s.ownerContainer, s.name)
    && |e.types| == |s.fields| && forall i :: 0 <= i < |e.types| ==> e.types[i] == s.fields[i].fieldType
  }

  predicate IsUnion(e: Embed, u: UnionDecl) {
    && e.declIndex == u.declIndex && e.key == Mangle(u.ownerContainer, u.name)
    && |e.types| == |u.fields| && forall i :: 0 <= i < |e.types| ==> e.types[i] == u.fields[i].fieldType
  }

  lemma StructsHave(structs: seq<StructDecl>, e: Embed)
    ensures e in OfStructs(structs) <==> exists k :: 0 <= k < |structs| && IsStruct(e, structs[k])
  {
    forall k | 0 <= k < |structs| ensures IsStruct(e, structs[k]) <==> e == OfStructs(structs)[k] {}
  }

  lemma UnionsHave(unions: seq<UnionDecl>, e: Embed)
    ensures e in OfUnions(unions) <==> exists k :: 0 <= k < |unions| && IsUnion(e, unions[k])
  {
    forall k | 0 <= k < |unions| ensures IsUnion(e, unions[k]) <==> e == OfUnions(unions)[k] {}
  }

  /** Both visit exactly the structs and unions of the module, top level and nested. */
  lemma OrderHas(m: Module, e: Embed)
    ensures e in GeneratorOrder(m) <==>
      || (exists k :: 0 <= k < |m.structs| && IsStruct(e, m.structs[k]))
      || (exists k :: 0 <= k < |m.unions| && IsUnion(e, m.unions[k]))
      || (exists i, k :: 0 <= i < |m.interfaces| && 0 <= k < |m.interfaces[i].structs| && IsStruct(e, m.interfaces[i].structs[k]))
      || (exists i, k :: 0 <= i < |m.interfaces| && 0 <= k < |m.interfaces[i].unions| && IsUnion(e, m.interfaces[i].unions[k]))
  {
    hide IsStruct, IsUnion, OfStructs, OfUnions, NestedStructs, NestedUnions;
    StructsHave(m.structs, e);
    UnionsHave(m.unions, e);
    NestedHave(m.interfaces, e);
  }

  // ----- who needs whom -----

  /** The struct or union that must be a complete C++ type where t is a member. */
  function CompleteTypeDeps(t: TypeSpec): seq<string> {
    match t.shape
    case Map(_, _) => []
    case Array(element, fixedSize) => if fixedSize == 0 then [] else CompleteTypeDeps(element)
    case Named(kind, _, ns, _) =>
      if kind.EnumRef? || t.nullable || ns != "" then [] else [ShapeKey(t.shape)]
    case _ => []
  }

  function AllDeps(types: seq<TypeSpec>): seq<string> {
    if types == [] then [] else CompleteTypeDeps(types[0]) + AllDeps(types[1..])
  }

  predicate Declared(embeds: seq<Embed>, key: string) {
    exists e :: e in embeds && e.key == key
  }

  /** Some declaration called `user` has a member that needs the declared `dep` complete. */
  predicate Needs(embeds: seq<Embed>, user: string, dep: string) {
    Declared(embeds, dep) && exists e :: e in embeds && e.key == user && dep in AllDeps(e.types)
  }

  /** A by-value cycle: each needs the one before it, and the last is the first. */
  predicate NeedsCycle(embeds: seq<Embed>, p: seq<string>) {
    && |p| >= 2 && p[0] == p[|p| - 1]
    && forall i :: 0 <= i < |p| - 1 ==> Needs(embeds, p[i + 1], p[i])
  }

  ghost predicate ByValueCycle(embeds: seq<Embed>) {
    exists p :: NeedsCycle(embeds, p)
  }

  lemma CycleDependsOnMembers(a: seq<Embed>, b: seq<Embed>)
    requires forall e :: e in a <==> e in b
    ensures ByValueCycle(a) <==> ByValueCycle(b)
  {
    forall user, dep ensures Needs(a, user, dep) <==> Needs(b, user, dep) {
      assert Declared(a, dep) <==> Declared(b, dep);
    }
    forall p ensures NeedsCycle(a, p) <==> NeedsCycle(b, p) {
      assert forall i :: 0 <= i < |p| - 1 ==> (Needs(a, p[i + 1], p[i]) <==> Needs(b, p[i + 1], p[i]));
    }
  }

  predicate DistinctKeys(embeds: seq<Embed>) {
    forall i, j :: 0 <= i < j < |embeds| ==> embeds[i].key != embeds[j].key
  }
}
