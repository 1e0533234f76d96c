/**
  What a reader compiled from one version of a schema makes of the bytes a writer compiled
  from another version produced, for every value and every compatible pair of schemas.
 */
module Evolution {
  import opened Ast
  import opened Bytes
  import opened Schema
  import opened Codec
  import opened Wrappers

  // ----- when two schemas can talk -----

  /** The fields the reader finds in the writer's header version are the writer's leading fields. */
  predicate StructCompat(ws: StructDecl, rs: StructDecl) {
    var wire, reader := WireFields(ws.fields), WireFields(rs.fields);
    var n := ReadCount(reader, Version(ws.fields));
    n <= |wire| && forall i :: 0 <= i < n ==> reader[i].fieldType == wire[i].fieldType
  }

  /** A tag both sides know means the same type to both. */
  ghost predicate UnionCompat(wu: UnionDecl, ru: UnionDecl) {
    forall tag: nat :: FieldByTag(wu.fields, tag).Some? && FieldByTag(ru.fields, tag).Some? ==>
      FieldByTag(wu.fields, tag).value.fieldType == FieldByTag(ru.fields, tag).value.fieldType
  }

  /**
    Either side may declare types the other does not have. Nothing is asked of the enums: a reader
    may know more or fewer values.
   */
  ghost predicate Compat(w: Env, r: Env) {
    && (forall k <- w.structs :: k in r.structs ==> StructCompat(w.structs[k], r.structs[k]))
    && (forall k <- w.unions :: k in r.unions ==> UnionCompat(w.unions[k], r.unions[k]))
  }

  // ----- what the reader sees -----

  /**
    The value the reader ends up with and the new handle index; its refusal; or its indexing past
    the handle vector.
   */
  datatype Receipt<+T> =
    | Got(value: T, next: nat)
    | Refused
    | OutOfHandles

  function ReceiveHandle(h: HandleKind, v: Value, handles: seq<nat>, next: nat): Receipt<Value>
    requires v.VHandle?
  {
    if !InMessageHandle(h) then Got(v, next)
    else if next < |handles| then Got(VHandle(handles[next], v.version), next + 1)
    else OutOfHandles
  }

  /**
    The reader takes its handles from `next` on, whatever the writer put there. A struct or union
    it does not declare is refused.
   */
  ghost function Receive(w: Env, r: Env, t: TypeSpec, asOf: Option<nat>, v: Value, handles: seq<nat>, next: nat)
    : Receipt<Value>
    requires Compat(w, r) && WellTyped(w, t, v)
    decreases v, 1
  {
    if t.shape.Handle? then
      if t.nullable && v.id == InvalidId(t.shape.handle) then Got(InvalidHandle(t.shape.handle), next)
      else ReceiveHandle(t.shape.handle, v, handles, next)
    else if t.nullable && v == VNone then Got(VNone, next)
    else ReceiveShape(w, r, t.shape, asOf, v, handles, next)
  }

  ghost function ReceiveShape(w: Env, r: Env, s: Shape, asOf: Option<nat>, v: Value, handles: seq<nat>, next: nat)
    : Receipt<Value>
    requires Compat(w, r) && ShapeTyped(w, s, v)
    decreases v, 0
  {
    match s
    case Scalar(_) => Got(v, next)
    case String => Got(v, next)
    case Array(element, _) =>
      (match ReceiveAll(w, r, Repeat(element, |v.elements|), asOf, v.elements, handles, next)
       case Got(vs, n) => Got(VArray(vs), n)
       case Refused => Refused
       case OutOfHandles => OutOfHandles)
    case Map(key, value) =>
      (match ReceiveAll(w, r, Alternate(key, value, |v.entries| / 2), asOf, v.entries, handles, next)
       case Got(vs, n) => Got(VMap(EmplaceAll([], vs)), n)
       case Refused => Refused
       case OutOfHandles => OutOfHandles)
    case Named(kind, _, _, _) =>
      match kind
      case EnumRef => if EnumReadable(r, s, v.raw, asOf) then Got(v, next) else Refused
      case StructRef =>
        if ShapeKey(s) !in r.structs then Refused
        else
          var ws, rs := w.structs[ShapeKey(s)], r.structs[ShapeKey(s)];
          var wire, reader := WireFields(ws.fields), WireFields(rs.fields);
          var n := ReadCount(reader, Version(ws.fields));
          SplitTyped(w, FieldTypes(wire), v.members, n);
          assert n == |v.members| ==> v.members[..n] == v.members;
          (match ReceiveAll(w, r, FieldTypes(wire)[..n], Some(Version(ws.fields)), v.members[..n], handles, next)
           case Got(vs, n') => Got(VStruct(vs + Initials(reader[n..])), n')
           case Refused => Refused
           case OutOfHandles => OutOfHandles)
      case UnionRef =>
        if ShapeKey(s) !in r.unions then Refused
        else
          var wu, ru := w.unions[ShapeKey(s)], r.unions[ShapeKey(s)];
          if v.VUnknown? || FieldByTag(ru.fields, v.tag).None? then
            if ru.isExtensible then Got(UnknownTag(ru), next) else Refused
          else
            match Receive(w, r, FieldByTag(wu.fields, v.tag).value.fieldType, None, v.payload, handles, next)
            case Got(p, n) => Got(VUnion(v.tag, p), n)
            case Refused => Refused
            case OutOfHandles => OutOfHandles
  }

  ghost function ReceiveAll(w: Env, r: Env, ts: seq<TypeSpec>, asOf: Option<nat>, vs: seq<Value>,
                            handles: seq<nat>, next: nat)
    : (rc: Receipt<seq<Value>>)
    requires Compat(w, r) && AllTyped(w, ts, vs)
    ensures rc.Got? ==> |rc.value| == |vs|
    decreases vs, 2
  {
    if vs == [] then Got([], next)
    else
      match Receive(w, r, ts[0], asOf, vs[0], handles, next)
      case Refused => Refused
      case OutOfHandles => OutOfHandles
      case Got(x, n) =>
        match ReceiveAll(w, r, ts[1..], asOf, vs[1..], handles, n)
        case Refused => Refused
        case OutOfHandles => OutOfHandles
        case Got(xs, n') => Got([x] + xs, n')
  }

  lemma {:induction false} SplitTyped(env: Env, ts: seq<TypeSpec>, vs: seq<Value>, n: nat)
    requires AllTyped(env, ts, vs) && n <= |vs|
    ensures |ts| == |vs|
    ensures AllTyped(env, ts[..n], vs[..n]) && AllTyped(env, ts[n..], vs[n..])
    ensures EncodeAll(env, ts, vs) == EncodeAll(env, ts[..n], vs[..n]) + EncodeAll(env, ts[n..], vs[n..])
    ensures AttachedAll(env, ts, vs) == AttachedAll(env, ts[..n], vs[..n]) + AttachedAll(env, ts[n..], vs[n..])
  {
    hide Encode, Attached, WellTyped;
    if n == 0 {
      assert ts[n..] == ts && vs[n..] == vs;
    } else {
      SplitTyped(env, ts[1..], vs[1..], n - 1);
      assert ts[..n][1..] == ts[1..][..n - 1] && vs[..n][1..] == vs[1..][..n - 1];
      assert ts[1..][n - 1..] == ts[n..] && vs[1..][n - 1..] == vs[n..];
    }
  }

  // ----- the reader computes it -----

  /** The outcome a receipt amounts to, for an encoding that ends at `end`. */
  function Expected<T>(rc: Receipt<T>, end: nat): Outcome<T> {
    match rc
    case Got(v, next) => Done(v, end, next)
    case Refused => Rejected
    case OutOfHandles => NoHandle
  }

  lemma {:induction false} Reads(w: Env, r: Env, t: TypeSpec, asOf: Option<nat>, v: Value,
                                 buf: seq<byte>, off: nat, handles: seq<nat>, next: nat)
    requires Compat(w, r) && WellTyped(w, t, v)
    requires At(buf, off, Encode(w, t, v)) && |Encode(w, t, v)| < U32
    ensures Decode(r, t, asOf, buf, off, handles, next) ==
            Expected(Receive(w, r, t, asOf, v, handles, next), off + |Encode(w, t, v)|)
    decreases v, 1
  {
    hide EncodeShape, DecodeShape, ReceiveShape, ShapeTyped, AttachedShape, EncodeHandle, DecodeHandle, Load,
         Compat;
    Spans();
    var handle := t.shape.Handle?;
    var absent := if handle then v.id == InvalidId(t.shape.handle) else v == VNone;
    var rest := if t.nullable && absent then []
                else if handle then EncodeHandle(t.shape.handle, v) else EncodeShape(w, t.shape, v);
    var start := if t.nullable then off + 1 else off;
    if t.nullable {
      var flag: byte := if absent then 0 else 1;
      assert LittleEndian(1, flag) == [flag] by { assert LittleEndian(0, 0) == []; }
      assert Encode(w, t, v) == LittleEndian(1, flag) + rest;
      AtConcat(buf, off, LittleEndian(1, flag), rest);
      LoadAt(1, flag, buf, off);
    }
    if !t.nullable || !absent {
      if handle {
        ReadsHandle(t.shape.handle, v, buf, start, handles, next);
      } else {
        ReadsShape(w, r, t.shape, asOf, v, buf, start, handles, next);
      }
    }
  }

  lemma {:induction false} ReadsHandle(h: HandleKind, v: Value, buf: seq<byte>, off: nat,
                                       handles: seq<nat>, next: nat)
    requires HandleTyped(h, v)
    requires At(buf, off, EncodeHandle(h, v))
    ensures DecodeHandle(h, buf, off, handles, next) ==
            Expected(ReceiveHandle(h, v, handles, next), off + |EncodeHandle(h, v)|)
  {
    hide LittleEndian, Load;
    Spans();
    var a := if InMessageHandle(h) then [] else LittleEndian(4, v.id);
    var b := if CarriesVersion(h) then LittleEndian(4, v.version) else [];
    AtConcat(buf, off, a, b);
    if !InMessageHandle(h) { LoadAt(4, v.id, buf, off); }
    if CarriesVersion(h) { LoadAt(4, v.version, buf, off + |a|); }
  }

  lemma {:induction false} ReadsShape(w: Env, r: Env, s: Shape, asOf: Option<nat>, v: Value,
                                      buf: seq<byte>, off: nat, handles: seq<nat>, next: nat)
    requires Compat(w, r) && ShapeTyped(w, s, v)
    requires At(buf, off, EncodeShape(w, s, v)) && |EncodeShape(w, s, v)| < U32
    ensures DecodeShape(r, s, asOf, buf, off, handles, next) ==
            Expected(ReceiveShape(w, r, s, asOf, v, handles, next), off + |EncodeShape(w, s, v)|)
    decreases v, 0, 1
  {
    hide Compat, At, Decode, DecodeAll, DecodeStruct, DecodeUnion, EncodeAll, ReceiveAll, AllTyped, WellTyped;
    if s.Scalar? || s.String? || (s.Named? && s.kind.EnumRef?) {
      ReadsLeaf(w, r, s, asOf, v, buf, off, handles, next);
    } else if s.Array? {
      ReadsArray(w, r, s, asOf, v, buf, off, handles, next);
    } else if s.Map? {
      ReadsMap(w, r, s, asOf, v, buf, off, handles, next);
    } else if s.Named? && s.kind.StructRef? && ShapeKey(s) in r.structs {
      ReadsStruct(w, r, s, asOf, v, buf, off, handles, next);
    } else if s.Named? && s.kind.UnionRef? && ShapeKey(s) in r.unions {
      ReadsUnion(w, r, s, asOf, v, buf, off, handles, next);
    }
  }

  lemma ReadsLeaf(w: Env, r: Env, s: Shape, asOf: Option<nat>, v: Value,
                  buf: seq<byte>, off: nat, handles: seq<nat>, next: nat)
    requires s.Scalar? || s.String? || (s.Named? && s.kind.EnumRef?)
    requires Compat(w, r) && ShapeTyped(w, s, v)
    requires At(buf, off, EncodeShape(w, s, v))
    ensures DecodeShape(r, s, asOf, buf, off, handles, next) ==
            Expected(ReceiveShape(w, r, s, asOf, v, handles, next), off + |EncodeShape(w, s, v)|)
  {
    hide Compat, Decode, DecodeAll, DecodeStruct, DecodeUnion, EncodeAll, ReceiveAll, AllTyped, WellTyped,
         EnumReadable, LittleEndian, Load;
    if s.Named? {
      Spans();
      LoadAt(4, ScalarImage(Int32, v.raw), buf, off);
      ScalarImageInverse(Int32, v.raw);
    } else if s.Scalar? {
      LoadAt(Width(s.scalar), ScalarImage(s.scalar, v.n), buf, off);
      ScalarImageInverse(s.scalar, v.n);
    } else {
      Spans();
      AtConcat(buf, off, LittleEndian(4, |v.chars|), v.chars);
      LoadAt(4, |v.chars|, buf, off);
    }
  }

  lemma {:induction false} ReadsArray(w: Env, r: Env, s: Shape, asOf: Option<nat>, v: Value,
                                      buf: seq<byte>, off: nat, handles: seq<nat>, next: nat)
    requires s.Array?
    requires Compat(w, r) && ShapeTyped(w, s, v)
    requires At(buf, off, EncodeShape(w, s, v)) && |EncodeShape(w, s, v)| < U32
    ensures DecodeShape(r, s, asOf, buf, off, handles, next) ==
            Expected(ReceiveShape(w, r, s, asOf, v, handles, next), off + |EncodeShape(w, s, v)|)
    decreases v, 0, 0
  {
    hide Compat, Decode, DecodeStruct, DecodeUnion, DecodeAll, Encode, EncodeAll, Receive, ReceiveAll, WellTyped, AllTyped,
         LittleEndian, Load, At;
    var ts, n := Repeat(s.element, |v.elements|), |v.elements|;
    var prefix := if s.fixedSize == 0 then LittleEndian(4, n) else [];
    AtConcat(buf, off, prefix, EncodeAll(w, ts, v.elements));
    if s.fixedSize == 0 {
      Spans();
      LoadAt(4, n, buf, off);
    }
    ReadsAll(w, r, ts, asOf, v.elements, buf, off + |prefix|, handles, next);
  }

  lemma {:induction false} ReadsMap(w: Env, r: Env, s: Shape, asOf: Option<nat>, v: Value,
                                    buf: seq<byte>, off: nat, handles: seq<nat>, next: nat)
    requires s.Map?
    requires Compat(w, r) && ShapeTyped(w, s, v)
    requires At(buf, off, EncodeShape(w, s, v)) && |EncodeShape(w, s, v)| < U32
    ensures DecodeShape(r, s, asOf, buf, off, handles, next) ==
            Expected(ReceiveShape(w, r, s, asOf, v, handles, next), off + |EncodeShape(w, s, v)|)
    decreases v, 0, 0
  {
    hide Compat, Decode, DecodeStruct, DecodeUnion, DecodeAll, Encode, EncodeAll, Receive, ReceiveAll, WellTyped, AllTyped,
         LittleEndian, Load, At;
    var n := |v.entries| / 2;
    var ts := Alternate(s.key, s.value, n);
    AtConcat(buf, off, LittleEndian(4, n), EncodeAll(w, ts, v.entries));
    Spans();
    LoadAt(4, n, buf, off);
    ReadsAll(w, r, ts, asOf, v.entries, buf, off + 4, handles, next);
  }

  lemma {:induction false} ReadsStruct(w: Env, r: Env, s: Shape, asOf: Option<nat>, v: Value,
                                       buf: seq<byte>, off: nat, handles: seq<nat>, next: nat)
    requires s.Named? && s.kind.StructRef? && ShapeKey(s) in r.structs
    requires Compat(w, r) && ShapeTyped(w, s, v)
    requires At(buf, off, EncodeShape(w, s, v)) && |EncodeShape(w, s, v)| < U32
    ensures DecodeShape(r, s, asOf, buf, off, handles, next) ==
            Expected(ReceiveShape(w, r, s, asOf, v, handles, next), off + |EncodeShape(w, s, v)|)
    decreases v, 0, 0
  {
    hide EncodeAll, DecodeAll, ReceiveAll, AllTyped, LittleEndian, Load, WireFields, Version, ReadCount, Decode, DecodeUnion,
         Encode, Receive, WellTyped, EnumReadable, At, Span, FromLittleEndian, AttachedAll, Attached, InvalidHandle, DecodeArray,
         IsKnown, Repeat, Alternate, EmplaceAll, UnionCompat, ScalarImage, ScalarOfImage;
    var ws, rs := w.structs[ShapeKey(s)], r.structs[ShapeKey(s)];
    var wire, reader := WireFields(ws.fields), WireFields(rs.fields);
    var version := Version(ws.fields);
    var n := ReadCount(reader, version);
    var ts := FieldTypes(wire);
    var body := EncodeAll(w, ts, v.members);
    SplitTyped(w, ts, v.members, n);
    var kept := EncodeAll(w, ts[..n], v.members[..n]);
    var skipped := EncodeAll(w, ts[n..], v.members[n..]);
    var size, header := LittleEndian(4, 8 + |body|), LittleEndian(4, version);
    assert EncodeShape(w, s, v) == size + header + body;
    AtConcat(buf, off, size + header, body);
    AtConcat(buf, off, size, header);
    AtConcat(buf, off + 8, kept, skipped);
    Spans();
    LoadAt(4, 8 + |body|, buf, off);
    LoadAt(4, version, buf, off + 4);
    assert n == |v.members| ==> v.members[..n] == v.members;
    assert FieldTypes(reader[..n]) == ts[..n];
    ReadsAll(w, r, ts[..n], Some(version), v.members[..n], buf, off + 8, handles, next);
  }

  lemma {:induction false} ReadsUnion(w: Env, r: Env, s: Shape, asOf: Option<nat>, v: Value,
                                       buf: seq<byte>, off: nat, handles: seq<nat>, next: nat)
    requires s.Named? && s.kind.UnionRef? && ShapeKey(s) in r.unions
    requires Compat(w, r) && ShapeTyped(w, s, v)
    requires At(buf, off, EncodeShape(w, s, v)) && |EncodeShape(w, s, v)| < U32
    ensures DecodeShape(r, s, asOf, buf, off, handles, next) ==
            Expected(ReceiveShape(w, r, s, asOf, v, handles, next), off + |EncodeShape(w, s, v)|)
    decreases v, 0, 0
  {
    hide Encode, Decode, Receive, WellTyped, LittleEndian, Load, EncodeAll, DecodeAll, ReceiveAll, AllTyped, DecodeStruct, At,
         EnumReadable, WireFields, Version, ReadCount, Span, FromLittleEndian, Attached, AttachedAll, IsKnown, Repeat,
         Alternate, EmplaceAll, StructCompat, ScalarImage, ScalarOfImage, InvalidHandle, DecodeArray;
    var wu, ru := w.unions[ShapeKey(s)], r.unions[ShapeKey(s)];
    var tag := if v.VUnknown? then U32 - 1 else v.tag;
    var body := if v.VUnknown? then [] else Encode(w, FieldByTag(wu.fields, v.tag).value.fieldType, v.payload);
    var size, image := LittleEndian(4, 8 + |body|), LittleEndian(4, tag);
    assert EncodeShape(w, s, v) == size + image + body;
    AtConcat(buf, off, size + image, body);
    AtConcat(buf, off, size, image);
    Spans();
    LoadAt(4, 8 + |body|, buf, off);
    LoadAt(4, tag, buf, off + 4);
    if v.VUnion? && FieldByTag(ru.fields, tag).Some? {
      Reads(w, r, FieldByTag(wu.fields, v.tag).value.fieldType, None, v.payload, buf, off + 8, handles, next);
    }
  }

  lemma {:induction false} ReadsAll(w: Env, r: Env, ts: seq<TypeSpec>, asOf: Option<nat>, vs: seq<Value>,
                                    buf: seq<byte>, off: nat, handles: seq<nat>, next: nat)
    requires Compat(w, r) && AllTyped(w, ts, vs)
    requires At(buf, off, EncodeAll(w, ts, vs)) && |EncodeAll(w, ts, vs)| < U32
    ensures DecodeAll(r, ts, asOf, buf, off, handles, next) ==
            Expected(ReceiveAll(w, r, ts, asOf, vs, handles, next), off + |EncodeAll(w, ts, vs)|)
    decreases vs, 2
  {
    hide Compat, At, Decode, Encode, Receive, WellTyped, LittleEndian, Load;
    if vs != [] {
      var first, rest := Encode(w, ts[0], vs[0]), EncodeAll(w, ts[1..], vs[1..]);
      AtConcat(buf, off, first, rest);
      Reads(w, r, ts[0], asOf, vs[0], buf, off, handles, next);
      var rc := Receive(w, r, ts[0], asOf, vs[0], handles, next);
      if rc.Got? { ReadsAll(w, r, ts[1..], asOf, vs[1..], buf, off + |first|, handles, rc.next); }
    }
  }
}
