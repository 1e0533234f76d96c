/**
  Whatever bytes and handles come in, a value the reader accepts is a value of its type: it can be
  written again.
 */
module Soundness {
  import opened Ast
  import opened Bytes
  import opened Schema
  import opened WireOrder
  import opened Codec
  import opened Evolution
  import opened Skew
  import opened Wrappers

  predicate StructStarts(env: Env, s: StructDecl) {
    forall f <- s.fields :: WellTyped(env, f.fieldType, f.initial)
  }

  predicate UnionStarts(env: Env, u: UnionDecl) {
    DistinctTags(u.fields) && forall f <- u.fields :: WellTyped(env, f.fieldType, f.initial)
  }

  /** Every member starts out with a value of its type, and no union has a tag twice. */
  ghost predicate StartsTyped(env: Env) {
    && (forall k <- env.structs :: StructStarts(env, env.structs[k]))
    && (forall k <- env.unions :: UnionStarts(env, env.unions[k]))
  }

  predicate RealHandles(handles: seq<nat>) { forall i :: 0 <= i < |handles| ==> handles[i] < U32 }

  // ----- lists of values -----

  lemma {:induction false} TypedPointwise(env: Env, ts: seq<TypeSpec>, vs: seq<Value>)
    ensures AllTyped(env, ts, vs) <==> |ts| == |vs| && forall i :: 0 <= i < |ts| ==> WellTyped(env, ts[i], vs[i])
  {
    hide WellTyped;
    if |ts| == |vs| && vs != [] {
      TypedPointwise(env, ts[1..], vs[1..]);
      if forall i :: 0 <= i < |ts| ==> WellTyped(env, ts[i], vs[i]) {
        assert forall i :: 0 <= i < |ts| - 1 ==> ts[1..][i] == ts[i + 1] && vs[1..][i] == vs[i + 1];
      }
      if AllTyped(env, ts, vs) {
        forall i | 0 <= i < |ts| ensures WellTyped(env, ts[i], vs[i]) {
          if i > 0 { assert ts[1..][i - 1] == ts[i] && vs[1..][i - 1] == vs[i]; }
        }
      }
    }
  }

  /** The first entry of a list of entries, and the others. */
  lemma FirstEntryTyped(env: Env, key: TypeSpec, value: TypeSpec, more: seq<Value>)
    requires |more| % 2 == 0 && more != [] && AllTyped(env, Alternate(key, value, |more| / 2), more)
    ensures WellTyped(env, key, more[0]) && WellTyped(env, value, more[1])
    ensures AllTyped(env, Alternate(key, value, |more[2..]| / 2), more[2..])
  {
    hide WellTyped, AllTyped;
    var ts, us := Alternate(key, value, |more| / 2), Alternate(key, value, |more[2..]| / 2);
    TypedPointwise(env, ts, more);
    TypedPointwise(env, us, more[2..]);
    assert ts[0] == key && ts[1] == value;
    forall i | 0 <= i < |us| ensures WellTyped(env, us[i], more[2..][i]) {
      assert ts[i + 2] == us[i] && more[i + 2] == more[2..][i];
    }
  }

  lemma OneMoreTyped(env: Env, key: TypeSpec, value: TypeSpec, entries: seq<Value>, k: Value, v: Value)
    requires |entries| % 2 == 0 && AllTyped(env, Alternate(key, value, |entries| / 2), entries)
    requires WellTyped(env, key, k) && WellTyped(env, value, v)
    ensures AllTyped(env, Alternate(key, value, |entries + [k, v]| / 2), entries + [k, v])
  {
    hide WellTyped, AllTyped;
    var ts, us := Alternate(key, value, |entries| / 2), Alternate(key, value, |entries + [k, v]| / 2);
    TypedPointwise(env, ts, entries);
    TypedPointwise(env, us, entries + [k, v]);
    forall i | 0 <= i < |us| ensures WellTyped(env, us[i], (entries + [k, v])[i]) {
      if i < |entries| { assert us[i] == ts[i]; }
    }
  }

  lemma EmplaceDistinct(entries: seq<Value>, k: Value, v: Value)
    requires |entries| % 2 == 0 && DistinctKeys(entries)
    ensures DistinctKeys(Emplace(entries, k, v))
  {
  }

  /** Emplaced entries are entries of the map, with distinct keys. */
  lemma {:induction false} EmplaceTyped(env: Env, key: TypeSpec, value: TypeSpec, entries: seq<Value>, more: seq<Value>)
    requires |entries| % 2 == 0 && |more| % 2 == 0 && DistinctKeys(entries)
    requires AllTyped(env, Alternate(key, value, |entries| / 2), entries)
    requires AllTyped(env, Alternate(key, value, |more| / 2), more)
    ensures var r := EmplaceAll(entries, more);
            && |r| % 2 == 0 && |r| <= |entries| + |more| && DistinctKeys(r)
            && AllTyped(env, Alternate(key, value, |r| / 2), r)
    decreases |more|
  {
    hide WellTyped, AllTyped, Alternate, DistinctKeys, HasKey;
    if more != [] {
      FirstEntryTyped(env, key, value, more);
      EmplaceDistinct(entries, more[0], more[1]);
      OneMoreTyped(env, key, value, entries, more[0], more[1]);
      EmplaceTyped(env, key, value, Emplace(entries, more[0], more[1]), more[2..]);
    }
  }

  // ----- the parts of a value -----

  lemma LoadBelow(w: nat, buf: seq<byte>, off: nat)
    ensures Load(w, buf, off).Some? ==> Load(w, buf, off).value < Span(w)
  {
    hide Span, FromLittleEndian;
    if off + w <= |buf| { assert |buf[off..off + w]| == w; }
  }

  lemma HandleIsTyped(h: HandleKind, buf: seq<byte>, off: nat, handles: seq<nat>, next: nat)
    requires off <= |buf| && RealHandles(handles)
    ensures var r := DecodeHandle(h, buf, off, handles, next); r.Done? ==> HandleTyped(h, r.value)
  {
    hide Load;
    Spans();
    LoadBelow(4, buf, off);
    LoadBelow(4, buf, off + 4);
  }

  lemma ScalarIsTyped(k: ScalarKind, u: nat)
    requires u < Span(Width(k))
    ensures ScalarInRange(k, ScalarOfImage(k, u))
  {
    Spans();
  }

  lemma {:induction false} TagFindsField(fields: seq<UnionField>, f: UnionField)
    requires DistinctTags(fields) && f in fields
    ensures FieldByTag(fields, f.tag) == Some(f)
  {
    if fields[0] != f {
      var i :| 0 <= i < |fields| && fields[i] == f;
      assert fields[0].tag != f.tag;
      assert fields[1..][i - 1] == f;
      TagFindsField(fields[1..], f);
    }
  }

  lemma {:induction false} DefaultIsField(fields: seq<UnionField>)
    ensures DefaultField(fields).Some? ==> DefaultField(fields).value in fields
  {
    if fields != [] { DefaultIsField(fields[1..]); }
  }

  /** What stands in for an unknown tag. */
  lemma UnknownIsTyped(env: Env, s: Shape)
    requires StartsTyped(env) && s.Named? && s.kind.UnionRef? && ShapeKey(s) in env.unions
    requires env.unions[ShapeKey(s)].isExtensible
    ensures ShapeTyped(env, s, UnknownTag(env.unions[ShapeKey(s)]))
  {
    hide WellTyped;
    var u := env.unions[ShapeKey(s)];
    assert UnionStarts(env, u);
    DefaultIsField(u.fields);
    if DefaultField(u.fields).Some? { TagFindsField(u.fields, DefaultField(u.fields).value); }
  }

  // ----- the reader -----

  lemma {:induction false} DecodeTyped(env: Env, t: TypeSpec, asOf: Option<nat>, buf: seq<byte>, off: nat,
                                       handles: seq<nat>, next: nat)
    requires StartsTyped(env) && RealHandles(handles) && off <= |buf|
    ensures var r := Decode(env, t, asOf, buf, off, handles, next); r.Done? ==> WellTyped(env, t, r.value)
    decreases |buf| - off, Depth(t), 2
  {
    hide StartsTyped, DecodeShape, ShapeTyped, DecodeHandle, Load;
    var at := if t.nullable then off + 1 else off;
    if t.shape.Handle? && at <= |buf| {
      HandleIsTyped(t.shape.handle, buf, at, handles, next);
    } else if at <= |buf| {
      ShapeIsTyped(env, t.shape, asOf, buf, at, handles, next);
    }
    LoadWithin(1, buf, off);
  }

  lemma LoadWithin(w: nat, buf: seq<byte>, off: nat)
    ensures Load(w, buf, off).Some? ==> off + w <= |buf|
  {
    hide Span, FromLittleEndian;
  }

  lemma {:induction false} ShapeIsTyped(env: Env, s: Shape, asOf: Option<nat>, buf: seq<byte>, off: nat,
                                        handles: seq<nat>, next: nat)
    requires StartsTyped(env) && RealHandles(handles) && off <= |buf|
    ensures var r := DecodeShape(env, s, asOf, buf, off, handles, next); r.Done? ==> ShapeTyped(env, s, r.value)
    decreases |buf| - off, Depth(TypeSpec(s, false)), 1
  {
    hide StartsTyped, Decode, DecodeAll, DecodeStruct, DecodeUnion, AllTyped, WellTyped, Load, EnumReadable, EmplaceAll;
    Spans();
    match s {
      case Scalar(k) =>
        LoadBelow(Width(k), buf, off);
        if Load(Width(k), buf, off).Some? { ScalarIsTyped(k, Load(Width(k), buf, off).value); }
      case String => LoadBelow(4, buf, off);
      case Array(element, fixedSize) =>
        LoadWithin(4, buf, off);
        LoadBelow(4, buf, off);
        if fixedSize > 0 {
          DepthBound(Repeat(element, fixedSize), Depth(element));
          AllAreTyped(env, Repeat(element, fixedSize), asOf, buf, off, handles, next);
        } else if Load(4, buf, off).Some? {
          AllAreTyped(env, Repeat(element, Load(4, buf, off).value), asOf, buf, off + 4, handles, next);
        }
      case Map(key, value) => MapIsTyped(env, s, asOf, buf, off, handles, next);
      case Handle(_, _, _) =>
      case Named(kind, _, _, _) =>
        match kind {
          case EnumRef =>
            LoadBelow(4, buf, off);
            if Load(4, buf, off).Some? { ScalarIsTyped(Int32, Load(4, buf, off).value); }
          case StructRef =>
            if ShapeKey(s) in env.structs { StructIsTyped(env, s, buf, off, handles, next); }
          case UnionRef =>
            if ShapeKey(s) in env.unions { UnionIsTyped(env, s, buf, off, handles, next); }
        }
    }
  }

  lemma {:induction false} MapIsTyped(env: Env, s: Shape, asOf: Option<nat>, buf: seq<byte>, off: nat,
                                      handles: seq<nat>, next: nat)
    requires StartsTyped(env) && RealHandles(handles) && off <= |buf| && s.Map?
    ensures var r := DecodeShape(env, s, asOf, buf, off, handles, next); r.Done? ==> ShapeTyped(env, s, r.value)
    decreases |buf| - off, Depth(TypeSpec(s, false)), 0
  {
    hide StartsTyped, Decode, DecodeAll, DecodeStruct, DecodeUnion, AllTyped, WellTyped, Load, EmplaceAll;
    Spans();
    LoadWithin(4, buf, off);
    LoadBelow(4, buf, off);
    if Load(4, buf, off).Some? {
      var ts := Alternate(s.key, s.value, Load(4, buf, off).value);
      AllAreTyped(env, ts, asOf, buf, off + 4, handles, next);
      var r := DecodeAll(env, ts, asOf, buf, off + 4, handles, next);
      if r.Done? {
        NothingTyped(env, s.key, s.value);
        EmplaceTyped(env, s.key, s.value, [], r.value);
      }
    }
  }

  lemma NothingTyped(env: Env, key: TypeSpec, value: TypeSpec)
    ensures AllTyped(env, Alternate(key, value, 0), [])
  {
  }

  lemma FieldsFilled(env: Env, wire: seq<StructField>, n: nat, vs: seq<Value>)
    requires n <= |wire| && AllTyped(env, FieldTypes(wire[..n]), vs)
    requires forall f <- wire :: WellTyped(env, f.fieldType, f.initial)
    ensures AllTyped(env, FieldTypes(wire), vs + Initials(wire[n..]))
  {
    hide WellTyped, AllTyped;
    TypedPointwise(env, FieldTypes(wire[..n]), vs);
    TypedPointwise(env, FieldTypes(wire), vs + Initials(wire[n..]));
  }

  lemma {:induction false} StructIsTyped(env: Env, s: Shape, buf: seq<byte>, off: nat, handles: seq<nat>, next: nat)
    requires StartsTyped(env) && RealHandles(handles) && off <= |buf|
    requires s.Named? && s.kind.StructRef? && ShapeKey(s) in env.structs
    ensures var r := DecodeStruct(env, env.structs[ShapeKey(s)], buf, off, handles, next);
            r.Done? ==> ShapeTyped(env, s, r.value)
    decreases |buf| - off, 0, 0
  {
    hide DecodeAll, AllTyped, WellTyped, Load, WireFields, ReadCount, UnionStarts;
    var d := env.structs[ShapeKey(s)];
    LoadWithin(4, buf, off);
    LoadWithin(4, buf, off + 4);
    if Load(4, buf, off).Some? && Load(4, buf, off + 4).Some? {
      var version := Load(4, buf, off + 4).value;
      var wire := WireFields(d.fields);
      var n := ReadCount(wire, version);
      var ts := FieldTypes(wire[..n]);
      AllAreTyped(env, ts, Some(version), buf, off + 8, handles, next);
      var r := DecodeAll(env, ts, Some(version), buf, off + 8, handles, next);
      if r.Done? {
        WireMembers(d.fields);
        assert StructStarts(env, d);
        FieldsFilled(env, wire, n, r.value);
      }
    }
  }

  lemma {:induction false} UnionIsTyped(env: Env, s: Shape, buf: seq<byte>, off: nat, handles: seq<nat>, next: nat)
    requires StartsTyped(env) && RealHandles(handles) && off <= |buf|
    requires s.Named? && s.kind.UnionRef? && ShapeKey(s) in env.unions
    ensures var r := DecodeUnion(env, env.unions[ShapeKey(s)], buf, off, handles, next);
            r.Done? ==> ShapeTyped(env, s, r.value)
    decreases |buf| - off, 0, 0
  {
    hide StartsTyped, Decode, WellTyped, Load;
    var u := env.unions[ShapeKey(s)];
    LoadWithin(4, buf, off);
    LoadWithin(4, buf, off + 4);
    if u.isExtensible { UnknownIsTyped(env, s); }
    if Load(4, buf, off).Some? && Load(4, buf, off + 4).Some? {
      var f := FieldByTag(u.fields, Load(4, buf, off + 4).value);
      if f.Some? { DecodeTyped(env, f.value.fieldType, None, buf, off + 8, handles, next); }
    }
  }

  lemma {:induction false} AllAreTyped(env: Env, ts: seq<TypeSpec>, asOf: Option<nat>, buf: seq<byte>, off: nat,
                                       handles: seq<nat>, next: nat)
    requires StartsTyped(env) && RealHandles(handles) && off <= |buf|
    ensures var r := DecodeAll(env, ts, asOf, buf, off, handles, next); r.Done? ==> AllTyped(env, ts, r.value)
    decreases |buf| - off, DepthAll(ts), 3 + |ts|
  {
    hide StartsTyped, Decode, WellTyped, Depth;
    if ts != [] {
      DecodeTyped(env, ts[0], asOf, buf, off, handles, next);
      var r := Decode(env, ts[0], asOf, buf, off, handles, next);
      if r.Done? {
        AllAreTyped(env, ts[1..], asOf, buf, r.offset, handles, r.next);
        var more := DecodeAll(env, ts[1..], asOf, buf, r.offset, handles, r.next);
        if more.Done? { assert ([r.value] + more.value)[1..] == more.value; }
      }
    }
  }

  // ----- across versions -----

  /** What a reader of any compatible schema makes of a value is a value of its own schema. */
  lemma ReceivedIsTyped(w: Env, r: Env, t: TypeSpec, asOf: Option<nat>, v: Value, handles: seq<nat>, next: nat)
    requires Compat(w, r) && WellTyped(w, t, v) && |Encode(w, t, v)| < U32
    requires StartsTyped(r) && RealHandles(handles)
    ensures var rc := Receive(w, r, t, asOf, v, handles, next); rc.Got? ==> WellTyped(r, t, rc.value)
  {
    hide Encode, Decode, Receive, WellTyped, Compat, StartsTyped;
    var buf := Encode(w, t, v);
    assert buf[0..|buf|] == buf;
    Reads(w, r, t, asOf, v, buf, 0, handles, next);
    DecodeTyped(r, t, asOf, buf, 0, handles, next);
  }
}
