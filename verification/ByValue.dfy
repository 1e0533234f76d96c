/**
  What it is to contain a type by value: which member types make a declaration wait for another,
  and why a circle of structs that contain each other cannot be filled with values.
 */
module ByValue {
  import opened Ast
  import opened Schema
  import opened WireOrder
  import opened Codec
  import opened Embeds

  // ----- what a complete type is needed for -----

  /** t, and what is left each time a fixed-size array is taken off it. */
  function Unwraps(layers: seq<TypeSpec>, t: TypeSpec): (b: bool)
    ensures b ==> layers != []
  {
    && layers != [] && layers[0] == t
    && forall i :: 0 <= i < |layers| - 1 ==>
         layers[i].shape.Array? && layers[i].shape.fixedSize > 0 && layers[i].shape.element == layers[i + 1]
  }

  /** A struct or union of this module that is always there, under its generated name. */
  predicate IsLocal(t: TypeSpec, key: string) {
    && t.shape.Named? && (t.shape.kind.StructRef? || t.shape.kind.UnionRef?)
    && !t.nullable && t.shape.ownerNamespace == ""
    && key == (if t.shape.ownerContainer == "" then t.shape.name else t.shape.ownerContainer + "_" + t.shape.name)
  }

  lemma DirectDeps(t: TypeSpec, key: string)
    requires !t.shape.Array?
    ensures key in CompleteTypeDeps(t) <==> IsLocal(t, key)
  {
  }

  lemma TakeLayer(layers: seq<TypeSpec>, t: TypeSpec)
    requires t.shape.Array? && Unwraps(layers, t) && |layers| > 1
    ensures t.shape.fixedSize > 0 && Unwraps(layers[1..], t.shape.element)
    ensures layers[1..][|layers[1..]| - 1] == layers[|layers| - 1]
  {
    assert layers[0].shape.element == layers[0 + 1];
  }

  lemma PutLayer(inner: seq<TypeSpec>, t: TypeSpec)
    requires t.shape.Array? && t.shape.fixedSize > 0 && Unwraps(inner, t.shape.element)
    ensures Unwraps([t] + inner, t) && ([t] + inner)[|[t] + inner| - 1] == inner[|inner| - 1]
  {
  }

  /** The types needed complete are those that taking off fixed-size arrays, and nothing else, leads to. */
  lemma {:induction false} CompleteTypesAre(t: TypeSpec, key: string)
    ensures key in CompleteTypeDeps(t) <==>
            exists layers :: Unwraps(layers, t) && IsLocal(layers[|layers| - 1], key)
  {
    hide Unwraps, IsLocal;
    if t.shape.Array? {
      CompleteTypesAre(t.shape.element, key);
      if key in CompleteTypeDeps(t) {
        var inner :| Unwraps(inner, t.shape.element) && IsLocal(inner[|inner| - 1], key);
        PutLayer(inner, t);
      }
      forall layers | Unwraps(layers, t) && IsLocal(layers[|layers| - 1], key) ensures key in CompleteTypeDeps(t) {
        LastLayer(layers, t, key);
        TakeLayer(layers, t);
      }
    } else {
      DirectDeps(t, key);
      JustOne(t);
      forall layers | Unwraps(layers, t) && IsLocal(layers[|layers| - 1], key) ensures IsLocal(t, key) { OneLayer(layers, t); }
    }
  }

  lemma LastLayer(layers: seq<TypeSpec>, t: TypeSpec, key: string)
    requires t.shape.Array? && Unwraps(layers, t) && IsLocal(layers[|layers| - 1], key)
    ensures |layers| > 1
  {
  }

  lemma JustOne(t: TypeSpec)
    ensures Unwraps([t], t) && [t][|[t]| - 1] == t
  {
  }

  lemma OneLayer(layers: seq<TypeSpec>, t: TypeSpec)
    requires !t.shape.Array?
    ensures Unwraps(layers, t) ==> |layers| == 1 && layers[|layers| - 1] == t
  {
    if |layers| > 1 { assert layers[0] == t ==> !layers[0].shape.Array?; }
  }

  /** The same for all members of a declaration. */
  lemma {:induction false} AllDepsAre(types: seq<TypeSpec>, key: string)
    ensures key in AllDeps(types) <==>
            exists i, layers :: 0 <= i < |types| && Unwraps(layers, types[i]) && IsLocal(layers[|layers| - 1], key)
  {
    hide CompleteTypeDeps;
    if types != [] {
      AllDepsAre(types[1..], key);
      CompleteTypesAre(types[0], key);
      if key in CompleteTypeDeps(types[0]) {
        var layers :| Unwraps(layers, types[0]) && IsLocal(layers[|layers| - 1], key);
      } else if key in AllDeps(types[1..]) {
        var i, layers :| 0 <= i < |types[1..]| && Unwraps(layers, types[1..][i]) && IsLocal(layers[|layers| - 1], key);
        assert Unwraps(layers, types[i + 1]);
      }
      if i, layers :| 0 <= i < |types| && Unwraps(layers, types[i]) && IsLocal(layers[|layers| - 1], key) {
        if i > 0 { assert types[1..][i - 1] == types[i]; }
      }
    }
  }

  // ----- values -----

  /** A value of t holds, inside it, a value of the struct. */
  predicate Contains(t: TypeSpec, key: string)
    decreases t
  {
    !t.nullable &&
    match t.shape
    case Array(element, fixedSize) => fixedSize > 0 && Contains(element, key)
    case Named(kind, _, ns, _) => kind.StructRef? && ns == "" && ShapeKey(t.shape) == key
    case _ => false
  }

  /** A struct has a member that does. */
  predicate HasMember(env: Env, from: string, to: string) {
    from in env.structs && exists f :: f in env.structs[from].fields && Contains(f.fieldType, to)
  }

  predicate StructCycle(env: Env, p: seq<string>) {
    && |p| >= 2 && p[0] == p[|p| - 1]
    && forall i :: 0 <= i < |p| - 1 ==> HasMember(env, p[i], p[i + 1])
  }

  /** v is a value of the struct of this name. */
  predicate IsStructValue(env: Env, key: string, v: Value) {
    && key in env.structs && v.VStruct?
    && AllTyped(env, FieldTypes(WireFields(env.structs[key].fields)), v.members)
  }

  /** The struct's value inside a value of a type that contains it. */
  lemma {:induction false} Inside(env: Env, t: TypeSpec, key: string, v: Value) returns (inner: Value)
    requires Contains(t, key) && WellTyped(env, t, v)
    ensures IsStructValue(env, key, inner)
    ensures inner == v || inner < v
    decreases t
  {
    match t.shape {
      case Array(element, fixedSize) =>
        MemberTyped(env, Repeat(element, |v.elements|), v.elements, 0);
        inner := Inside(env, element, key, v.elements[0]);
        assert v.elements[0] < v;
      case Named(_, _, _, _) => inner := v;
    }
  }

  lemma {:induction false} MemberTyped(env: Env, ts: seq<TypeSpec>, vs: seq<Value>, i: nat)
    requires AllTyped(env, ts, vs) && i < |ts|
    ensures WellTyped(env, ts[i], vs[i])
    decreases i
  {
    if i > 0 { MemberTyped(env, ts[1..], vs[1..], i - 1); }
  }

  lemma StepInside(env: Env, from: string, to: string, v: Value) returns (inner: Value)
    requires HasMember(env, from, to) && IsStructValue(env, from, v)
    ensures IsStructValue(env, to, inner) && inner < v
  {
    hide WellTyped, WireFields;
    var fields := env.structs[from].fields;
    var f :| f in fields && Contains(f.fieldType, to);
    WireIsStableSort(fields);
    var wire := WireFields(fields);
    assert f in multiset(wire);
    var i :| 0 <= i < |wire| && wire[i] == f;
    MemberTyped(env, FieldTypes(wire), v.members, i);
    inner := Inside(env, f.fieldType, to, v.members[i]);
    assert v.members[i] in v.members && v.members[i] < v;
  }

  /** On a circle of structs that contain each other by value, no struct has a value. */
  lemma {:induction false} NoValueOnCycle(env: Env, p: seq<string>, i: nat, v: Value)
    requires StructCycle(env, p) && i < |p|
    ensures !IsStructValue(env, p[i], v)
    decreases v
  {
    if IsStructValue(env, p[i], v) {
      var k := if i == |p| - 1 then 0 else i;
      assert p[k] == p[i] && HasMember(env, p[k], p[k + 1]);
      var inner := StepInside(env, p[k], p[k + 1], v);
      NoValueOnCycle(env, p, k + 1, inner);
    }
  }

  /** So no reference to one has, unless it may be absent. */
  lemma NoReferenceToCycle(env: Env, p: seq<string>, i: nat, s: Shape, v: Value)
    requires StructCycle(env, p) && i < |p| && s.Named? && s.kind.StructRef? && ShapeKey(s) == p[i]
    ensures !WellTyped(env, TypeSpec(s, false), v)
  {
    NoValueOnCycle(env, p, i, v);
  }

  // ----- and the parser rejects it -----

  /** The environment's structs are declared in the module, with all their fields. */
  predicate Declares(embeds: seq<Embed>, env: Env) {
    forall k <- env.structs :: exists e :: e in embeds && e.key == k && forall f <- env.structs[k].fields :: f.fieldType in e.types
  }

  lemma {:induction false} ContainsIsDep(t: TypeSpec, key: string)
    requires Contains(t, key)
    ensures key in CompleteTypeDeps(t)
  {
    if t.shape.Array? { ContainsIsDep(t.shape.element, key); }
  }

  lemma {:induction false} DepOfAll(types: seq<TypeSpec>, t: TypeSpec, key: string)
    requires t in types && key in CompleteTypeDeps(t)
    ensures key in AllDeps(types)
  {
    if types[0] != t {
      assert t in types[1..];
      DepOfAll(types[1..], t, key);
    }
  }

  lemma MemberIsNeed(embeds: seq<Embed>, env: Env, from: string, to: string)
    requires Declares(embeds, env) && HasMember(env, from, to) && to in env.structs
    ensures Needs(embeds, from, to)
  {
    hide CompleteTypeDeps, AllDeps;
    var f :| f in env.structs[from].fields && Contains(f.fieldType, to);
    var e :| e in embeds && e.key == from && forall f <- env.structs[from].fields :: f.fieldType in e.types;
    var d :| d in embeds && d.key == to && forall f <- env.structs[to].fields :: f.fieldType in d.types;
    ContainsIsDep(f.fieldType, to);
    DepOfAll(e.types, f.fieldType, to);
  }

  /** The circles without values are by-value cycles, which the parser rejects. */
  lemma StructCycleIsRejected(embeds: seq<Embed>, env: Env, p: seq<string>)
    requires Declares(embeds, env) && StructCycle(env, p)
    ensures ByValueCycle(embeds)
  {
    hide Declares, HasMember, Needs;
    var n := |p|;
    var q := seq(n, i requires 0 <= i < n => p[n - 1 - i]);
    forall i | 0 <= i < n - 1 ensures Needs(embeds, q[i + 1], q[i]) {
      var k := n - 2 - i;
      assert HasMember(env, p[k], p[k + 1]);
      KeyOnCycle(env, p, k + 1);
      MemberIsNeed(embeds, env, p[k], p[k + 1]);
    }
    assert NeedsCycle(embeds, q);
  }

  lemma KeyOnCycle(env: Env, p: seq<string>, i: nat)
    requires StructCycle(env, p) && i < |p|
    ensures p[i] in env.structs
  {
    var k := if i == |p| - 1 then 0 else i;
    assert HasMember(env, p[k], p[k + 1]);
  }
}
