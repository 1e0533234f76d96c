/**
  Which structs and unions carry handles: the fixed point the generator computes, what it
  contains, and what it licenses.
 */
module HandleContext {
  import opened Ast
  import opened Schema
  import opened WireOrder
  import opened Codec
  import opened Embeds

  /** TypeNeedsHandleCtx: handle-bearing itself, or through elements, map values or a marked reference. */
  predicate TypeNeeds(t: TypeSpec, ctx: set<string>) {
    match t.shape
    case Handle(_, _, _) => true
    case Named(kind, _, _, _) => !kind.EnumRef? && ShapeKey(t.shape) in ctx
    case Array(element, _) => TypeNeeds(element, ctx)
    case Map(_, value) => TypeNeeds(value, ctx)
    case _ => false
  }

  // ----- reachability -----

  /** What is left of t below its arrays and map values. */
  function Bottom(t: TypeSpec): Shape {
    match t.shape
    case Array(element, _) => Bottom(element)
    case Map(_, value) => Bottom(value)
    case s => s
  }

  predicate Refers(t: TypeSpec, key: string) {
    Bottom(t).Named? && !Bottom(t).kind.EnumRef? && ShapeKey(Bottom(t)) == key
  }

  predicate BearsHandle(embeds: seq<Embed>, key: string) {
    exists e, t :: e in embeds && e.key == key && t in e.types && Bottom(t).Handle?
  }

  predicate Links(embeds: seq<Embed>, from: string, to: string) {
    exists e, t :: e in embeds && e.key == from && t in e.types && Refers(t, to)
  }

  /** A chain of declarations, each with a field referring to the next, ending at a handle. */
  predicate HandleChain(embeds: seq<Embed>, p: seq<string>) {
    && p != [] && BearsHandle(embeds, p[|p| - 1])
    && forall i :: 0 <= i < |p| - 1 ==> Links(embeds, p[i], p[i + 1])
  }

  ghost predicate ReachesHandle(embeds: seq<Embed>, key: string) {
    exists p :: HandleChain(embeds, p) && p[0] == key
  }

  lemma {:induction false} NeedsByBottom(t: TypeSpec, ctx: set<string>)
    ensures TypeNeeds(t, ctx) <==>
      Bottom(t).Handle? || (Bottom(t).Named? && !Bottom(t).kind.EnumRef? && ShapeKey(Bottom(t)) in ctx)
  {
    match t.shape {
      case Array(element, _) => NeedsByBottom(element, ctx);
      case Map(_, value) => NeedsByBottom(value, ctx);
      case _ =>
    }
  }

  /** A field that needs a sound context makes its declaration reach a handle. */
  lemma NeedsReaches(embeds: seq<Embed>, ctx: set<string>, e: Embed, t: TypeSpec)
    requires forall k <- ctx :: ReachesHandle(embeds, k)
    requires e in embeds && t in e.types && TypeNeeds(t, ctx)
    ensures ReachesHandle(embeds, e.key)
  {
    NeedsByBottom(t, ctx);
    if Bottom(t).Handle? {
      assert BearsHandle(embeds, e.key);
      assert HandleChain(embeds, [e.key]) && [e.key][0] == e.key;
    } else {
      var next := ShapeKey(Bottom(t));
      var p :| HandleChain(embeds, p) && p[0] == next;
      assert Refers(t, next) && Links(embeds, e.key, next);
      var q := [e.key] + p;
      forall i | 0 <= i < |q| - 1 ensures Links(embeds, q[i], q[i + 1]) {
        if i > 0 { assert q[i] == p[i - 1] && q[i + 1] == p[i]; }
      }
      assert HandleChain(embeds, q) && q[0] == e.key;
    }
  }

  /** No declaration outside ctx has a field that needs it. */
  predicate Closed(embeds: seq<Embed>, ctx: set<string>) {
    forall e <- embeds :: e.key in ctx || forall t <- e.types :: !TypeNeeds(t, ctx)
  }

  lemma {:induction false} ClosedHasChains(embeds: seq<Embed>, ctx: set<string>, p: seq<string>)
    requires Closed(embeds, ctx) && HandleChain(embeds, p)
    ensures p[0] in ctx
  {
    if |p| == 1 {
      var e, t :| e in embeds && e.key == p[0] && t in e.types && Bottom(t).Handle?;
      NeedsByBottom(t, ctx);
    } else {
      forall i | 0 <= i < |p[1..]| - 1 ensures Links(embeds, p[1..][i], p[1..][i + 1]) {
        assert Links(embeds, p[i + 1], p[i + 1 + 1]);
      }
      ClosedHasChains(embeds, ctx, p[1..]);
      assert Links(embeds, p[0], p[0 + 1]);
      var e, t :| e in embeds && e.key == p[0] && t in e.types && Refers(t, p[1]);
      NeedsByBottom(t, ctx);
    }
  }

  /** The first field that needs the context, if there is one. */
  method FirstNeeding(types: seq<TypeSpec>, ctx: set<string>) returns (k: nat)
    ensures k <= |types| && forall j :: 0 <= j < k ==> !TypeNeeds(types[j], ctx)
    ensures k < |types| ==> TypeNeeds(types[k], ctx)
  {
    k := 0;
    while k < |types| && !TypeNeeds(types[k], ctx)
      invariant 0 <= k <= |types| && forall j :: 0 <= j < k ==> !TypeNeeds(types[j], ctx)
    {
      k := k + 1;
    }
  }

  lemma ClosedGrows(embeds: seq<Embed>, i: nat, ctx: set<string>)
    requires i < |embeds| && Closed(embeds[..i], ctx)
    requires embeds[i].key in ctx || forall j :: 0 <= j < |embeds[i].types| ==> !TypeNeeds(embeds[i].types[j], ctx)
    ensures Closed(embeds[..i + 1], ctx)
  {
    hide TypeNeeds;
    assert embeds[..i + 1] == embeds[..i] + [embeds[i]];
  }

  /**
    Repeats passes over all declarations until one changes nothing. The result is exactly the
    declarations that reach a handle, however they refer to each other; being closed, it is the
    least fixed point.
   */
  method BuildHandleCtx(m: Module) returns (ctx: set<string>)
    ensures forall k :: k in ctx <==> ReachesHandle(GeneratorOrder(m), k)
    ensures Closed(GeneratorOrder(m), ctx)
  {
    hide GeneratorOrder, ReachesHandle, Closed, TypeNeeds;
    var embeds := GeneratorOrder(m);
    ghost var keys := set e | e in embeds :: e.key;
    ctx := {};
    var changed := true;
    while changed
      invariant ctx <= keys && forall k <- ctx :: ReachesHandle(embeds, k)
      invariant !changed ==> Closed(embeds, ctx)
      decreases |keys - ctx|, changed
    {
      changed := false;
      ghost var start := ctx;
      NoneClosed(embeds, ctx);
      for i := 0 to |embeds|
        invariant start <= ctx <= keys && forall k <- ctx :: ReachesHandle(embeds, k)
        invariant changed <==> start != ctx
        invariant !changed ==> Closed(embeds[..i], ctx)
      {
        var e := embeds[i];
        if e.key !in ctx {
          var k := FirstNeeding(e.types, ctx);
          if k < |e.types| {
            NeedsReaches(embeds, ctx, e, e.types[k]);
            ctx := ctx + {e.key};
            changed := true;
          }
        }
        if !changed { ClosedGrows(embeds, i, ctx); }
      }
      assert embeds[..|embeds|] == embeds;
      if changed {
        assert keys - ctx < keys - start;
        SmallerSet(keys - ctx, keys - start);
      }
    }
    forall k ensures k in ctx <==> ReachesHandle(embeds, k) {
      ChainInCtx(embeds, ctx, k);
    }
  }

  lemma NoneClosed(embeds: seq<Embed>, ctx: set<string>)
    ensures Closed(embeds[..0], ctx)
  {
  }

  lemma SmallerSet<T>(a: set<T>, b: set<T>)
    requires a < b
    ensures |a| < |b|
  {
    assert b == a + (b - a) && b - a != {};
  }

  lemma ChainInCtx(embeds: seq<Embed>, ctx: set<string>, k: string)
    requires Closed(embeds, ctx)
    ensures ReachesHandle(embeds, k) ==> k in ctx
  {
    if ReachesHandle(embeds, k) {
      var p :| HandleChain(embeds, p) && p[0] == k;
      ClosedHasChains(embeds, ctx, p);
    }
  }

  /** The context is below every other set the passes could stop at. */
  lemma LeastFixedPoint(embeds: seq<Embed>, ctx: set<string>, other: set<string>)
    requires forall k :: k in ctx <==> ReachesHandle(embeds, k)
    requires Closed(embeds, other)
    ensures ctx <= other
  {
    forall k | k in ctx ensures k in other {
      ChainInCtx(embeds, other, k);
    }
  }

  // ----- whether the emitted code fits together -----

  /**
    The write code emitted for an expression of type t compiles, as far as handles go: moving a
    handle out, and the writer of a type in the context, need an expression that is not const, and
    a loop variable is const unless the element type needs handles. A map's keys are always const.
   */
  predicate WriteCompiles(t: TypeSpec, mutable: bool, ctx: set<string>) {
    match t.shape
    case Handle(_, _, _) => mutable
    case Named(kind, _, _, _) => !kind.EnumRef? && ShapeKey(t.shape) in ctx ==> mutable
    case Array(element, _) => WriteCompiles(element, mutable && TypeNeeds(element, ctx), ctx)
    case Map(key, value) => WriteCompiles(key, false, ctx) && WriteCompiles(value, mutable && TypeNeeds(value, ctx), ctx)
    case _ => true
  }

  /** The read code compiles: what takes a handle, or passes the handle arguments on, has them. */
  predicate ReadCompiles(t: TypeSpec, arguments: bool, ctx: set<string>) {
    match t.shape
    case Handle(_, _, _) => arguments
    case Named(kind, _, _, _) => !kind.EnumRef? && ShapeKey(t.shape) in ctx ==> arguments
    case Array(element, _) => ReadCompiles(element, arguments, ctx)
    case Map(key, value) => ReadCompiles(key, arguments, ctx) && ReadCompiles(value, arguments, ctx)
    case _ => true
  }

  /** The writers and readers of all declarations: those in the context take handle arguments and a value to change. */
  predicate HandlesCompile(embeds: seq<Embed>, ctx: set<string>) {
    forall e <- embeds :: forall t <- e.types ::
      WriteCompiles(t, e.key in ctx, ctx) && ReadCompiles(t, e.key in ctx, ctx)
  }

  lemma {:induction false} TypeCompiles(t: TypeSpec, inCtx: bool, ctx: set<string>)
    ensures WriteCompiles(t, inCtx, ctx) <==> PlainKeys(t, ctx) && (TypeNeeds(t, ctx) ==> inCtx)
    ensures ReadCompiles(t, inCtx, ctx) <==> inCtx || (PlainKeys(t, ctx) && !TypeNeeds(t, ctx))
  {
    match t.shape {
      case Array(element, _) =>
        TypeCompiles(element, inCtx, ctx);
        TypeCompiles(element, inCtx && TypeNeeds(element, ctx), ctx);
      case Map(key, value) =>
        TypeCompiles(key, false, ctx);
        TypeCompiles(key, inCtx, ctx);
        TypeCompiles(value, inCtx, ctx);
        TypeCompiles(value, inCtx && TypeNeeds(value, ctx), ctx);
      case _ =>
    }
  }

  /** With the context the passes end with, the emitted code fits together exactly when no map key needs it. */
  lemma CompilesIffPlain(embeds: seq<Embed>, ctx: set<string>)
    requires Closed(embeds, ctx)
    ensures HandlesCompile(embeds, ctx) <==> forall e <- embeds :: forall t <- e.types :: PlainKeys(t, ctx)
  {
    forall e, t | e in embeds && t in e.types
      ensures WriteCompiles(t, e.key in ctx, ctx) && ReadCompiles(t, e.key in ctx, ctx) <==> PlainKeys(t, ctx)
    {
      TypeCompiles(t, e.key in ctx, ctx);
    }
  }

  // ----- leaving the handle arguments out is safe -----

  /** No map anywhere in t has a key type that needs a handle context. */
  predicate PlainKeys(t: TypeSpec, ctx: set<string>) {
    match t.shape
    case Array(element, _) => PlainKeys(element, ctx)
    case Map(key, value) => !TypeNeeds(key, ctx) && PlainKeys(key, ctx) && PlainKeys(value, ctx)
    case _ => true
  }

  predicate DeclaresStruct(embeds: seq<Embed>, key: string, fields: seq<StructField>) {
    exists e :: e in embeds && e.key == key && (forall f <- fields :: f.fieldType in e.types)
  }

  predicate DeclaresUnion(embeds: seq<Embed>, key: string, fields: seq<UnionField>) {
    exists e :: e in embeds && e.key == key && (forall f <- fields :: f.fieldType in e.types)
  }

  /** The environment's declarations are the module's. */
  predicate Describes(embeds: seq<Embed>, env: Env) {
    && (forall k <- env.structs :: DeclaresStruct(embeds, k, env.structs[k].fields))
    && (forall k <- env.unions :: DeclaresUnion(embeds, k, env.unions[k].fields))
  }

  /**
    In a module whose emitted code compiles, what is written without handle arguments attaches no
    handle, whatever the value.
   */
  lemma NoContextNoHandles(embeds: seq<Embed>, env: Env, ctx: set<string>, t: TypeSpec, v: Value)
    requires Closed(embeds, ctx) && HandlesCompile(embeds, ctx) && Describes(embeds, env)
    requires WellTyped(env, t, v) && WriteCompiles(t, false, ctx)
    ensures !TypeNeeds(t, ctx) && Attached(env, t, v) == []
  {
    hide Closed, Describes, HandlesCompile, Attached, WellTyped, TypeNeeds, PlainKeys, WriteCompiles, ReadCompiles;
    CompilesIffPlain(embeds, ctx);
    TypeCompiles(t, false, ctx);
    assert DescribesPlain(embeds, env, ctx);
    PlainWritesNone(embeds, env, ctx, t, v);
  }

  predicate DescribesPlain(embeds: seq<Embed>, env: Env, ctx: set<string>) {
    Describes(embeds, env) && forall e <- embeds :: forall t <- e.types :: PlainKeys(t, ctx)
  }

  lemma {:induction false} PlainWritesNone(embeds: seq<Embed>, env: Env, ctx: set<string>, t: TypeSpec, v: Value)
    requires Closed(embeds, ctx) && DescribesPlain(embeds, env, ctx)
    requires WellTyped(env, t, v) && PlainKeys(t, ctx) && !TypeNeeds(t, ctx)
    ensures Attached(env, t, v) == []
    decreases v, 1
  {
    if !(t.nullable && v == VNone) {
      match t.shape {
        case Array(element, _) =>
          PlainWritesNoneAll(embeds, env, ctx, Repeat(element, |v.elements|), v.elements);
        case Map(key, value) =>
          PlainWritesNoneAll(embeds, env, ctx, Alternate(key, value, |v.entries| / 2), v.entries);
        case Named(kind, _, _, _) =>
          if kind.StructRef? {
            var fields := env.structs[ShapeKey(t.shape)].fields;
            var ts := FieldTypes(WireFields(fields));
            forall i | 0 <= i < |ts| ensures PlainKeys(ts[i], ctx) && !TypeNeeds(ts[i], ctx) {
              StructFieldPlain(embeds, env, ctx, ShapeKey(t.shape), i);
            }
            PlainWritesNoneAll(embeds, env, ctx, ts, v.members);
          } else if kind.UnionRef? && v.VUnion? {
            var f := FieldByTag(env.unions[ShapeKey(t.shape)].fields, v.tag).value;
            UnionFieldPlain(embeds, env, ctx, ShapeKey(t.shape), f);
            PlainWritesNone(embeds, env, ctx, f.fieldType, v.payload);
          }
        case _ =>
      }
    }
  }

  lemma StructFieldPlain(embeds: seq<Embed>, env: Env, ctx: set<string>, k: string, i: nat)
    requires Closed(embeds, ctx) && DescribesPlain(embeds, env, ctx)
    requires k in env.structs && k !in ctx && i < |WireFields(env.structs[k].fields)|
    ensures var t := WireFields(env.structs[k].fields)[i].fieldType; PlainKeys(t, ctx) && !TypeNeeds(t, ctx)
  {
    WireMembers(env.structs[k].fields);
    var f := WireFields(env.structs[k].fields)[i];
    assert DeclaresStruct(embeds, k, env.structs[k].fields);
    var e :| e in embeds && e.key == k && (forall f <- env.structs[k].fields :: f.fieldType in e.types);
    assert f in env.structs[k].fields && f.fieldType in e.types;
  }

  lemma UnionFieldPlain(embeds: seq<Embed>, env: Env, ctx: set<string>, k: string, f: UnionField)
    requires Closed(embeds, ctx) && DescribesPlain(embeds, env, ctx)
    requires k in env.unions && k !in ctx && f in env.unions[k].fields
    ensures PlainKeys(f.fieldType, ctx) && !TypeNeeds(f.fieldType, ctx)
  {
    assert DeclaresUnion(embeds, k, env.unions[k].fields);
    var e :| e in embeds && e.key == k && (forall f <- env.unions[k].fields :: f.fieldType in e.types);
    assert f.fieldType in e.types;
  }

  lemma {:induction false} PlainWritesNoneAll(embeds: seq<Embed>, env: Env, ctx: set<string>,
                                                 ts: seq<TypeSpec>, vs: seq<Value>)
    requires Closed(embeds, ctx) && DescribesPlain(embeds, env, ctx)
    requires AllTyped(env, ts, vs)
    requires forall i :: 0 <= i < |ts| ==> PlainKeys(ts[i], ctx) && !TypeNeeds(ts[i], ctx)
    ensures AttachedAll(env, ts, vs) == []
    decreases vs, 2
  {
    hide Closed, DescribesPlain, Attached, WellTyped, TypeNeeds, PlainKeys;
    if vs != [] {
      PlainWritesNone(embeds, env, ctx, ts[0], vs[0]);
      PlainWritesNoneAll(embeds, env, ctx, ts[1..], vs[1..]);
    }
  }

  // ----- a key that carries a handle -----

  const Always := EnableIf(EnableIfClause(NoClause, []), EnableIfClause(NoClause, []))
  const RawHandle := TypeSpec(Handle(AnyHandle, "", ""), false)

  /** struct Key { handle h; }; */
  function KeyStruct(): StructDecl {
    StructDecl("Key", [StructField("h", RawHandle, 0, VHandle(0, 0), Always)], [], 0, "", Always)
  }

  function KeyedMap(): TypeSpec {
    TypeSpec(Map(TypeSpec(Named(StructRef, "Key", "", ""), false), TypeSpec(Scalar(Int32), false)), false)
  }

  /** struct Holder { map<Key, int32> m; }; */
  function HolderStruct(): StructDecl {
    StructDecl("Holder", [StructField("m", KeyedMap(), 0, VMap([]), Always)], [], 1, "", Always)
  }

  function KeyedModule(): Module { Module("", [], [KeyStruct(), HolderStruct()], [], []) }

  /**
    The parser lets a struct with a handle key a map, but the passes do not look into map keys: the
    code emitted for such a module passes a const key to a writer that changes it, and handle
    arguments that its reader does not have.
   */
  method KeyWithHandle() returns (ctx: set<string>)
    ensures ctx == {"Key"} && !HandlesCompile(GeneratorOrder(KeyedModule()), ctx)
  {
    ctx := BuildHandleCtx(KeyedModule());
    KeyedContext(ctx);
  }

  lemma KeyedContext(ctx: set<string>)
    requires var embeds := GeneratorOrder(KeyedModule());
             (forall k :: k in ctx <==> ReachesHandle(embeds, k)) && Closed(embeds, ctx)
    ensures ctx == {"Key"} && !HandlesCompile(GeneratorOrder(KeyedModule()), ctx)
  {
    hide GeneratorOrder, ReachesHandle, Closed, HandlesCompile, PlainKeys;
    var embeds := GeneratorOrder(KeyedModule());
    KeyedEmbeds();
    KeyedClosed(embeds, ctx);
    LeastFixedPoint(embeds, ctx, {"Key"});
    CompilesIffPlain(embeds, ctx);
    KeyedNotPlain(ctx);
    assert embeds[1] in embeds && KeyedMap() in embeds[1].types;
  }

  lemma KeyedClosed(embeds: seq<Embed>, ctx: set<string>)
    requires embeds == [Embed(0, "Key", [RawHandle]), Embed(1, "Holder", [KeyedMap()])] && Closed(embeds, ctx)
    ensures Closed(embeds, {"Key"}) && "Key" in ctx
  {
    assert embeds[0] in embeds && RawHandle in embeds[0].types && TypeNeeds(RawHandle, ctx);
  }

  lemma KeyedNotPlain(ctx: set<string>)
    requires "Key" in ctx
    ensures !PlainKeys(KeyedMap(), ctx)
  {
  }

  lemma KeyedEmbeds()
    ensures GeneratorOrder(KeyedModule()) == [Embed(0, "Key", [RawHandle]), Embed(1, "Holder", [KeyedMap()])]
  {
    assert OfStruct(KeyStruct()).types == [RawHandle] && OfStruct(HolderStruct()).types == [KeyedMap()];
    assert OfStructs(KeyedModule().structs) == [OfStruct(KeyStruct()), OfStruct(HolderStruct())];
  }
}
