/**
  What a name in a type means: which declaration a bare or dotted reference is taken for.
 */
module Resolution {
  import opened Ast

  /**
    What the parser knows of names: its module statement, the names declared in this file, the
    owning module of every name loaded from another one, the declared names by kind, what each is
    nested in, and what is nested in each container. Entries of this file come before loaded ones.
   */
  datatype Context = Context(moduleName: string, localNames: set<string>, owners: map<string, string>,
                             structs: set<string>, unions: set<string>, enums: set<string>,
                             structIn: map<string, string>, unionIn: map<string, string>, enumIn: map<string, string>,
                             structsOf: map<string, set<string>>, unionsOf: map<string, set<string>>,
                             enumsOf: map<string, set<string>>)

  function JoinDots(segs: seq<string>): string {
    if segs == [] then "" else if |segs| == 1 then segs[0] else segs[0] + "." + JoinDots(segs[1..])
  }

  function OwnerOf(ctx: Context, name: string): string {
    if name in ctx.localNames then "" else if name in ctx.owners then ctx.owners[name] else ""
  }

  function OwnerForQualified(ctx: Context, qual: string, name: string): string {
    if qual == "" || qual == ctx.moduleName then OwnerOf(ctx, name) else qual
  }

  predicate Declared(ctx: Context, name: string) {
    name in ctx.structs || name in ctx.unions || name in ctx.enums
  }

  function Lookup(m: map<string, string>, name: string): string { if name in m then m[name] else "" }

  predicate Nests(m: map<string, set<string>>, container: string, name: string) {
    container in m && name in m[container]
  }

  /** The declaration of this name, a struct before a union before an enum. */
  function Declaration(ctx: Context, name: string, owner: string): Shape
    requires Declared(ctx, name)
  {
    if name in ctx.structs then Named(StructRef, name, owner, Lookup(ctx.structIn, name))
    else if name in ctx.unions then Named(UnionRef, name, owner, Lookup(ctx.unionIn, name))
    else Named(EnumRef, name, owner, Lookup(ctx.enumIn, name))
  }

  /** A name that nothing declares is taken for a struct of the module it is qualified with. */
  function External(ctx: Context, qual: string, name: string): Shape {
    if Declared(ctx, name) then Declaration(ctx, name, if name in ctx.localNames then "" else qual)
    else Named(StructRef, name, qual, "")
  }

  predicate OwnerNamed(ctx: Context, qual: string, name: string) { name in ctx.owners && ctx.owners[name] == qual }

  /** This file's own module spelled out, and a name that comes from no other. */
  predicate SelfNamed(ctx: Context, qual: string, name: string) {
    ctx.moduleName != "" && qual == ctx.moduleName && (name !in ctx.owners || ctx.owners[name] == "")
  }

  function Resolve(ctx: Context, segs: seq<string>): Shape
    requires segs != []
  {
    var last := segs[|segs| - 1];
    var qual := JoinDots(segs[..|segs| - 1]);
    if |segs| == 1 then
      if Declared(ctx, last) then Declaration(ctx, last, OwnerOf(ctx, last)) else External(ctx, "", last)
    else if Declared(ctx, last) && (OwnerNamed(ctx, qual, last) || SelfNamed(ctx, qual, last)) then
      Declaration(ctx, last, if OwnerNamed(ctx, qual, last) then qual else "")
    else if |segs| == 2 && Nests(ctx.enumsOf, segs[0], last) then Named(EnumRef, last, OwnerOf(ctx, segs[0]), segs[0])
    else if |segs| == 2 && Nests(ctx.structsOf, segs[0], last) then Named(StructRef, last, OwnerOf(ctx, segs[0]), segs[0])
    else if |segs| == 2 && Nests(ctx.unionsOf, segs[0], last) then Named(UnionRef, last, OwnerOf(ctx, segs[0]), segs[0])
    else External(ctx, qual, last)
  }

  lemma Qualify(segs: seq<string>, name: string)
    requires segs != []
    ensures var all := segs + [name]; all[|all| - 1] == name && all[..|all| - 1] == segs && |all| > 1
  {
  }

  /**
    A name of another module means the same with its module spelled out, exactly when this file
    does not declare the name itself; then the bare name is this file's.
   */
  lemma QualifiedMeansBare(ctx: Context, segs: seq<string>, name: string)
    requires segs != [] && JoinDots(segs) != "" && Declared(ctx, name) && OwnerNamed(ctx, JoinDots(segs), name)
    ensures Resolve(ctx, segs + [name]) == Declaration(ctx, name, JoinDots(segs))
    ensures Resolve(ctx, segs + [name]) == Resolve(ctx, [name]) <==> name !in ctx.localNames
  {
    Qualify(segs, name);
  }

  /** This file's own module in front of a name changes nothing exactly when the name is declared. */
  lemma SelfQualifiedMeansBare(ctx: Context, segs: seq<string>, name: string)
    requires segs != [] && JoinDots(segs) == ctx.moduleName != "" && SelfNamed(ctx, ctx.moduleName, name)
    requires segs[0] != ""
    ensures Resolve(ctx, segs + [name]) == Resolve(ctx, [name]) <==> Declared(ctx, name)
  {
    Qualify(segs, name);
    assert [name][..0] == [];
  }
}
