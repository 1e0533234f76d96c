/**
  What a written reference means: the kind, owner and container that come back for a bare or dotted
  name, said by the parser's tables of declared names.
 */
module References {
  import opened Ast
  import opened Lexer
  import opened Resolution
  import opened TypeKeys
  import opened TypeParser
  import opened KeyRoundTrip

  /** The words that start another kind of type. */
  const Keywords: set<string> := {
    "string", "array", "map", "hash_map", "handle", "associated",
    "pending_remote", "pending_receiver", "pending_associated_remote", "pending_associated_receiver",
    "bool", "int8", "uint8", "int16", "uint16", "int32", "uint32", "int64", "uint64", "float", "double"
  }

  /** A dotted name, and the '?' of a nullable type. */
  function Written(segs: seq<string>, nullable: bool): seq<Token>
    requires segs != []
  {
    DottedTokens(segs) + if nullable then [Punct('?')] else []
  }

  /** What follows does not continue the type. */
  predicate Ends(nullable: bool, rest: seq<Token>) {
    rest == [] || (if nullable then true else rest[0] != Punct('.') && rest[0] != Punct('?'))
  }

  /** The parse gives this type and leaves the rest. */
  predicate Reads(ctx: Context, segs: seq<string>, nullable: bool, rest: seq<Token>, s: Shape)
    requires segs != []
  {
    ParseType(ctx, Written(segs, nullable) + rest) == Got(TypeSpec(s, nullable), rest)
  }

  lemma KeywordsAreApart(w: string)
    requires w !in Keywords
    ensures PendingKeyword(w).None? && ScalarKeyword(w).None?
  {
  }

  lemma ReadsResolved(ctx: Context, segs: seq<string>, nullable: bool, rest: seq<Token>)
    requires segs != [] && segs[0] !in Keywords && Ends(nullable, rest)
    ensures Reads(ctx, segs, nullable, rest, Resolve(ctx, segs))
  {
    hide Segments, DottedTokens, PendingKeyword, ScalarKeyword, Resolve;
    KeywordsAreApart(segs[0]);
    DottedHead(segs);
    var mark := if nullable then [Punct('?')] else [];
    var after := mark + rest;
    var toks := DottedTokens(segs) + after;
    assert Written(segs, nullable) + rest == toks;
    assert toks[0] == Name(segs[0]) && toks[1..] == DottedTokens(segs)[1..] + after;
    ParsesDotted([], segs, after);
    assert [] + [segs[0]] == [segs[0]] && [] + segs == segs;
    assert ParseInner(ctx, toks) == Got(NonNull(Resolve(ctx, segs)), after);
    if nullable { assert after[1..] == rest; } else { assert after == rest; }
  }

  // ----- declarations -----

  /** The entry, or nothing. */
  function Entry(m: map<string, string>, k: string): string { if k in m then m[k] else "" }

  predicate IsDeclared(ctx: Context, name: string) {
    name in ctx.structs || name in ctx.unions || name in ctx.enums
  }

  /**
    A reference to the declaration of this name, in this module: a struct if there is one, a union
    if there is no struct, an enum if there is neither, with what it is nested in.
   */
  predicate RefersTo(ctx: Context, s: Shape, name: string, owner: string) {
    && s.Named? && s.name == name && s.ownerNamespace == owner
    && (name in ctx.structs ==> s.kind == StructRef && s.ownerContainer == Entry(ctx.structIn, name))
    && (name in ctx.unions && name !in ctx.structs ==> s.kind == UnionRef && s.ownerContainer == Entry(ctx.unionIn, name))
    && (name in ctx.enums && name !in ctx.unions && name !in ctx.structs ==>
          s.kind == EnumRef && s.ownerContainer == Entry(ctx.enumIn, name))
  }

  /** The module a name belongs to: none for a name of this file, else the one it was loaded from. */
  predicate BelongsTo(ctx: Context, name: string, owner: string) {
    if name in ctx.localNames then owner == "" else owner == Entry(ctx.owners, name)
  }

  /** A bare name is the declaration of that name, in the module it belongs to. */
  lemma BareReference(ctx: Context, name: string, nullable: bool, rest: seq<Token>)
    requires name !in Keywords && Ends(nullable, rest) && IsDeclared(ctx, name)
    ensures exists s, owner ::
      Reads(ctx, [name], nullable, rest, s) && RefersTo(ctx, s, name, owner) && BelongsTo(ctx, name, owner)
  {
    ReadsResolved(ctx, [name], nullable, rest);
    var s := Resolve(ctx, [name]);
    assert RefersTo(ctx, s, name, s.ownerNamespace) && BelongsTo(ctx, name, s.ownerNamespace);
  }

  /** A name of another module with that module in front is its declaration there. */
  lemma ImportedReference(ctx: Context, front: seq<string>, name: string, nullable: bool, rest: seq<Token>)
    requires front != [] && front[0] !in Keywords && Ends(nullable, rest)
    requires IsDeclared(ctx, name) && name in ctx.owners && ctx.owners[name] == JoinDots(front)
    ensures exists s :: Reads(ctx, front + [name], nullable, rest, s) && RefersTo(ctx, s, name, JoinDots(front))
  {
    ReadsResolved(ctx, front + [name], nullable, rest);
    Qualify(front, name);
    assert RefersTo(ctx, Resolve(ctx, front + [name]), name, JoinDots(front));
  }

  /** With this file's own module in front, a name that comes from no other module is this file's. */
  lemma OwnModuleReference(ctx: Context, front: seq<string>, name: string, nullable: bool, rest: seq<Token>)
    requires front != [] && front[0] !in Keywords && Ends(nullable, rest)
    requires IsDeclared(ctx, name) && JoinDots(front) == ctx.moduleName != "" && Entry(ctx.owners, name) == ""
    ensures exists s :: Reads(ctx, front + [name], nullable, rest, s) && RefersTo(ctx, s, name, "")
  {
    ReadsResolved(ctx, front + [name], nullable, rest);
    Qualify(front, name);
    assert RefersTo(ctx, Resolve(ctx, front + [name]), name, "");
  }

  /** The two spellings above. */
  predicate NamesModule(ctx: Context, qual: string, name: string) {
    && IsDeclared(ctx, name)
    && ((name in ctx.owners && ctx.owners[name] == qual)
        || (qual == ctx.moduleName != "" && Entry(ctx.owners, name) == ""))
  }

  /** What a container has under this name; an enum hides a struct, and a struct a union. */
  predicate Holds(ctx: Context, container: string, name: string, kind: NamedKind) {
    match kind
    case EnumRef => container in ctx.enumsOf && name in ctx.enumsOf[container]
    case StructRef =>
      && container in ctx.structsOf && name in ctx.structsOf[container]
      && !(container in ctx.enumsOf && name in ctx.enumsOf[container])
    case UnionRef =>
      && container in ctx.unionsOf && name in ctx.unionsOf[container]
      && !(container in ctx.enumsOf && name in ctx.enumsOf[container])
      && !(container in ctx.structsOf && name in ctx.structsOf[container])
  }

  /** `Container.Name` is what the container holds, in the module the container belongs to. */
  lemma NestedReference(ctx: Context, container: string, name: string, kind: NamedKind, nullable: bool, rest: seq<Token>)
    requires container !in Keywords && Ends(nullable, rest)
    requires !NamesModule(ctx, container, name) && Holds(ctx, container, name, kind)
    ensures exists owner :: BelongsTo(ctx, container, owner) &&
              Reads(ctx, [container, name], nullable, rest, Named(kind, name, owner, container))
  {
    ReadsResolved(ctx, [container, name], nullable, rest);
    Qualify([container], name);
    assert [container] + [name] == [container, name];
    var owner := Resolve(ctx, [container, name]).ownerNamespace;
    assert BelongsTo(ctx, container, owner);
  }

  /**
    Any other dotted name is a declaration of the module it is qualified with - of this file, if
    this file declares it - and a struct of that module if nothing declares it.
   */
  lemma OtherReference(ctx: Context, front: seq<string>, name: string, nullable: bool, rest: seq<Token>)
    requires front != [] && front[0] !in Keywords && Ends(nullable, rest)
    requires !NamesModule(ctx, JoinDots(front), name)
    requires |front| == 1 ==> forall kind :: !Holds(ctx, front[0], name, kind)
    ensures IsDeclared(ctx, name) ==>
      exists s :: Reads(ctx, front + [name], nullable, rest, s) &&
        RefersTo(ctx, s, name, if name in ctx.localNames then "" else JoinDots(front))
    ensures !IsDeclared(ctx, name) ==>
      Reads(ctx, front + [name], nullable, rest, Named(StructRef, name, JoinDots(front), ""))
  {
    hide Reads, RefersTo, Holds, NamesModule, Resolve;
    ReadsResolved(ctx, front + [name], nullable, rest);
    OtherResolved(ctx, front, name);
  }

  lemma OtherResolved(ctx: Context, front: seq<string>, name: string)
    requires front != [] && !NamesModule(ctx, JoinDots(front), name)
    requires |front| == 1 ==> forall kind :: !Holds(ctx, front[0], name, kind)
    ensures var s := Resolve(ctx, front + [name]);
            && (IsDeclared(ctx, name) ==> RefersTo(ctx, s, name, if name in ctx.localNames then "" else JoinDots(front)))
            && (!IsDeclared(ctx, name) ==> s == Named(StructRef, name, JoinDots(front), ""))
  {
    hide JoinDots, Resolve;
    FallsThrough(ctx, front, name);
  }

  lemma FallsThrough(ctx: Context, front: seq<string>, name: string)
    requires front != [] && !NamesModule(ctx, JoinDots(front), name)
    requires |front| == 1 ==> forall kind :: !Holds(ctx, front[0], name, kind)
    ensures Resolve(ctx, front + [name]) == External(ctx, JoinDots(front), name)
  {
    hide JoinDots, External, Declaration, Nests, Holds;
    Qualify(front, name);
    if |front| == 1 {
      NothingHeld(ctx, front[0], name);
      assert (front + [name])[0] == front[0];
    }
  }

  lemma NothingHeld(ctx: Context, container: string, name: string)
    requires forall kind :: !Holds(ctx, container, name, kind)
    ensures !Nests(ctx.enumsOf, container, name) && !Nests(ctx.structsOf, container, name) &&
            !Nests(ctx.unionsOf, container, name)
  {
    assert !Holds(ctx, container, name, EnumRef);
    assert !Holds(ctx, container, name, StructRef);
    assert !Holds(ctx, container, name, UnionRef);
  }

  /** A bare name that nothing declares is taken for a struct. */
  lemma UndeclaredReference(ctx: Context, name: string, nullable: bool, rest: seq<Token>)
    requires name !in Keywords && Ends(nullable, rest) && !IsDeclared(ctx, name)
    ensures Reads(ctx, [name], nullable, rest, Named(StructRef, name, "", ""))
  {
    ReadsResolved(ctx, [name], nullable, rest);
  }
}
