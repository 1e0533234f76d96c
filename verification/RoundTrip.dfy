/**
  Reader and writer of one schema: exactly which values come back, and where the reader stops.
 */
module RoundTrip {
  import opened Ast
  import opened Bytes
  import opened Schema
  import opened WireOrder
  import opened Codec
  import opened Evolution
  import opened Wrappers

  lemma CompatSelf(env: Env)
    ensures Compat(env, env)
  {
    forall k | k in env.structs ensures StructCompat(env.structs[k], env.structs[k]) {
      OwnReadCount(env.structs[k].fields);
    }
  }

  // ----- which values a reader of the same schema accepts -----

  /** The first entry with this number is as old as `asOf`, or there is no `asOf`. */
  predicate DeclaredAsOf(values: seq<EnumValue>, raw: int, asOf: Option<nat>) {
    exists i :: 0 <= i < |values| && FirstAt(values, raw, i) && (asOf.None? || values[i].minVersion <= asOf.value)
  }

  predicate FirstAt(values: seq<EnumValue>, raw: int, i: nat)
    requires i < |values|
  {
    values[i].value == raw && forall j :: 0 <= j < i ==> values[j].value != raw
  }

  /** An enum takes any number if its name is extensible, and otherwise only declared ones that are old enough. */
  predicate EnumAccepts(env: Env, s: Shape, raw: int, asOf: Option<nat>)
    requires s.Named?
  {
    s.name in env.extensible ||
    (ShapeKey(s) in env.enums && DeclaredAsOf(env.enums[ShapeKey(s)].values, raw, asOf))
  }

  lemma {:induction false} FirstValueIsFirst(values: seq<EnumValue>, raw: int)
    ensures FirstValue(values, raw).None? <==> forall i :: 0 <= i < |values| ==> values[i].value != raw
    ensures forall i :: 0 <= i < |values| && FirstAt(values, raw, i) ==> FirstValue(values, raw) == Some(values[i])
    ensures FirstValue(values, raw).Some? ==>
      exists i :: 0 <= i < |values| && FirstAt(values, raw, i) && FirstValue(values, raw) == Some(values[i])
  {
    if values != [] {
      FirstValueIsFirst(values[1..], raw);
      if values[0].value == raw {
        assert FirstAt(values, raw, 0);
      } else {
        forall i | 0 <= i < |values| && FirstAt(values, raw, i) ensures FirstValue(values, raw) == Some(values[i]) {
          assert FirstAt(values[1..], raw, i - 1);
        }
        if FirstValue(values, raw).Some? {
          var i :| 0 <= i < |values[1..]| && FirstAt(values[1..], raw, i) && FirstValue(values[1..], raw) == Some(values[1..][i]);
          assert FirstAt(values, raw, i + 1);
        }
      }
    }
  }

  lemma EnumCheck(env: Env, s: Shape, raw: int, asOf: Option<nat>)
    requires s.Named?
    ensures EnumReadable(env, s, raw, asOf) <==> EnumAccepts(env, s, raw, asOf)
  {
    if ShapeKey(s) in env.enums { FirstValueIsFirst(env.enums[ShapeKey(s)].values, raw); }
  }

  /**
    Every enum passes its check: known as of the version of the struct it sits in directly,
    declared at any version when it sits in a union or a parameter, or [Extensible].
   */
  predicate Readable(env: Env, t: TypeSpec, asOf: Option<nat>, v: Value)
    requires WellTyped(env, t, v)
    decreases v, 1
  {
    t.shape.Handle? || (t.nullable && v == VNone) || ShapeReadable(env, t.shape, asOf, v)
  }

  predicate ShapeReadable(env: Env, s: Shape, asOf: Option<nat>, v: Value)
    requires ShapeTyped(env, s, v)
    decreases v, 0
  {
    match s
    case Array(element, _) => AllReadable(env, Repeat(element, |v.elements|), asOf, v.elements)
    case Map(key, value) => AllReadable(env, Alternate(key, value, |v.entries| / 2), asOf, v.entries)
    case Named(kind, _, _, _) =>
      (match kind
       case EnumRef => EnumAccepts(env, s, v.raw, asOf)
       case StructRef =>
         var fields := env.structs[ShapeKey(s)].fields;
         AllReadable(env, FieldTypes(WireFields(fields)), Some(Version(fields)), v.members)
       case UnionRef =>
         v.VUnion? ==>
           Readable(env, FieldByTag(env.unions[ShapeKey(s)].fields, v.tag).value.fieldType, None, v.payload))
    case _ => true
  }

  predicate AllReadable(env: Env, ts: seq<TypeSpec>, asOf: Option<nat>, vs: seq<Value>)
    requires AllTyped(env, ts, vs)
    decreases vs, 2
  {
    vs == [] || (Readable(env, ts[0], asOf, vs[0]) && AllReadable(env, ts[1..], asOf, vs[1..]))
  }

  /**
    No union holds `Tag::kUnknown` where the schema names a [Default] field to put instead, and no
    absent endpoint has a version, which is not written.
   */
  predicate Settled(env: Env, t: TypeSpec, v: Value)
    requires WellTyped(env, t, v)
    decreases v, 1
  {
    if t.shape.Handle? then t.nullable && v.id == InvalidId(t.shape.handle) ==> v.version == 0
    else (t.nullable && v == VNone) || ShapeSettled(env, t.shape, v)
  }

  predicate ShapeSettled(env: Env, s: Shape, v: Value)
    requires ShapeTyped(env, s, v)
    decreases v, 0
  {
    match s
    case Array(element, _) => AllSettled(env, Repeat(element, |v.elements|), v.elements)
    case Map(key, value) => AllSettled(env, Alternate(key, value, |v.entries| / 2), v.entries)
    case Named(kind, _, _, _) =>
      (match kind
       case EnumRef => true
       case StructRef =>
         AllSettled(env, FieldTypes(WireFields(env.structs[ShapeKey(s)].fields)), v.members)
       case UnionRef =>
         var u := env.unions[ShapeKey(s)];
         if v.VUnknown? then DefaultField(u.fields).None?
         else Settled(env, FieldByTag(u.fields, v.tag).value.fieldType, v.payload))
    case _ => true
  }

  predicate AllSettled(env: Env, ts: seq<TypeSpec>, vs: seq<Value>)
    requires AllTyped(env, ts, vs)
    decreases vs, 2
  {
    vs == [] || (Settled(env, ts[0], vs[0]) && AllSettled(env, ts[1..], vs[1..]))
  }

  // ----- maps -----

  /** Emplacing keeps every entry when the keys differ, and loses one otherwise. */
  lemma {:induction false} EmplaceLoss(entries: seq<Value>, more: seq<Value>)
    requires |entries| % 2 == 0 && |more| % 2 == 0
    requires DistinctKeys(entries)
    ensures DistinctKeys(entries + more) ==> EmplaceAll(entries, more) == entries + more
    ensures !DistinctKeys(entries + more) ==> |EmplaceAll(entries, more)| < |entries| + |more|
    decreases |more|
  {
    if more == [] {
      assert entries + more == entries;
    } else {
      var grown := Emplace(entries, more[0], more[1]);
      if HasKey(entries, more[0]) {
        var i :| 0 <= i < |entries| && i % 2 == 0 && entries[i] == more[0];
        assert (entries + more)[i] == (entries + more)[|entries|];
        EmplaceLoss(entries, more[2..]);
      } else {
        assert entries + more == grown + more[2..];
        EmplaceLoss(grown, more[2..]);
      }
    }
  }

  lemma EmplaceReceived(entries: seq<Value>, received: seq<Value>)
    requires |entries| % 2 == 0 && DistinctKeys(entries) && |received| == |entries|
    ensures EmplaceAll([], received) == entries <==> received == entries
  {
    EmplaceLoss([], received);
    assert [] + received == received;
  }

  // ----- a schema read by itself -----

  /** What `Receive` comes to when reader and writer share a schema and the handles are the writer's. */
  ghost predicate OwnReceipt<T>(rc: Receipt<T>, readable: bool, settled: bool, v: T, end: nat) {
    && (rc.Refused? <==> !readable)
    && (rc.Got? <==> readable)
    && (rc.Got? ==> rc.next == end && (rc.value == v <==> settled))
  }

  lemma {:induction false} ReceiveOwn(env: Env, t: TypeSpec, asOf: Option<nat>, v: Value, handles: seq<nat>, next: nat)
    requires WellTyped(env, t, v) && Compat(env, env)
    requires At(handles, next, Attached(env, t, v))
    ensures OwnReceipt(Receive(env, env, t, asOf, v, handles, next), Readable(env, t, asOf, v), Settled(env, t, v),
                       v, next + |Attached(env, t, v)|)
    decreases v, 1
  {
    hide ShapeTyped, ReceiveShape, AttachedShape, ShapeReadable, ShapeSettled, Compat;
    if !t.shape.Handle? && !(t.nullable && v == VNone) {
      ReceiveOwnShape(env, t.shape, asOf, v, handles, next);
    }
  }

  lemma {:induction false} ReceiveOwnShape(env: Env, s: Shape, asOf: Option<nat>, v: Value,
                                           handles: seq<nat>, next: nat)
    requires ShapeTyped(env, s, v) && Compat(env, env)
    requires At(handles, next, AttachedShape(env, s, v))
    ensures OwnReceipt(ReceiveShape(env, env, s, asOf, v, handles, next), ShapeReadable(env, s, asOf, v),
                       ShapeSettled(env, s, v), v, next + |AttachedShape(env, s, v)|)
    decreases v, 0, 1
  {
    hide ReceiveAll, AttachedAll, AllReadable, AllSettled, Receive, Attached, Readable, Settled, AllTyped, WellTyped, At,
         EnumReadable, EnumAccepts;
    match s {
      case Array(element, _) =>
        ReceiveOwnAll(env, Repeat(element, |v.elements|), asOf, v.elements, handles, next);
      case Map(key, value) =>
        var ts := Alternate(key, value, |v.entries| / 2);
        ReceiveOwnAll(env, ts, asOf, v.entries, handles, next);
        var rc := ReceiveAll(env, env, ts, asOf, v.entries, handles, next);
        if rc.Got? { EmplaceReceived(v.entries, rc.value); }
      case Named(kind, _, _, _) =>
        match kind {
          case EnumRef => EnumCheck(env, s, v.raw, asOf);
          case StructRef =>
            ReceiveOwnStruct(env, s, asOf, v, handles, next);
          case UnionRef =>
            var u := env.unions[ShapeKey(s)];
            if v.VUnion? {
              ReceiveOwn(env, FieldByTag(u.fields, v.tag).value.fieldType, None, v.payload, handles, next);
            }
        }
      case _ =>
    }
  }

  lemma {:induction false} ReceiveOwnStruct(env: Env, s: Shape, asOf: Option<nat>, v: Value,
                                            handles: seq<nat>, next: nat)
    requires s.Named? && s.kind.StructRef?
    requires ShapeTyped(env, s, v) && Compat(env, env)
    requires At(handles, next, AttachedShape(env, s, v))
    ensures OwnReceipt(ReceiveShape(env, env, s, asOf, v, handles, next), ShapeReadable(env, s, asOf, v),
                       ShapeSettled(env, s, v), v, next + |AttachedShape(env, s, v)|)
    decreases v, 0, 0
  {
    hide ReceiveAll, AttachedAll, AllReadable, AllSettled, Receive, Attached, Readable, Settled, AllTyped, WellTyped, At,
         WireFields, Version, ReadCount;
    var fields := env.structs[ShapeKey(s)].fields;
    var wire := WireFields(fields);
    OwnReadCount(fields);
    assert FieldTypes(wire)[..|wire|] == FieldTypes(wire) && v.members[..|wire|] == v.members;
    assert Initials(wire[|wire|..]) == [];
    ReceiveOwnAll(env, FieldTypes(wire), Some(Version(fields)), v.members, handles, next);
    var rc := ReceiveAll(env, env, FieldTypes(wire), Some(Version(fields)), v.members, handles, next);
    if rc.Got? { assert rc.value + Initials(wire[|wire|..]) == rc.value; }
  }

  lemma {:induction false} ReceiveOwnAll(env: Env, ts: seq<TypeSpec>, asOf: Option<nat>, vs: seq<Value>,
                                         handles: seq<nat>, next: nat)
    requires AllTyped(env, ts, vs) && Compat(env, env)
    requires At(handles, next, AttachedAll(env, ts, vs))
    ensures OwnReceipt(ReceiveAll(env, env, ts, asOf, vs, handles, next), AllReadable(env, ts, asOf, vs),
                       AllSettled(env, ts, vs), vs, next + |AttachedAll(env, ts, vs)|)
    decreases vs, 2
  {
    hide Receive, Attached, Readable, Settled, WellTyped, Compat, At;
    if vs != [] {
      AtConcat(handles, next, Attached(env, ts[0], vs[0]), AttachedAll(env, ts[1..], vs[1..]));
      ReceiveOwn(env, ts[0], asOf, vs[0], handles, next);
      var first := Receive(env, env, ts[0], asOf, vs[0], handles, next);
      if first.Got? {
        ReceiveOwnAll(env, ts[1..], asOf, vs[1..], handles, first.next);
        var rc := ReceiveAll(env, env, ts, asOf, vs, handles, next);
        assert vs == [vs[0]] + vs[1..];
        if rc.Got? { assert rc.value[0] == first.value; }
      }
    }
  }

  /**
    Round trip, with anything before and after in the buffer and in the handle list. The read
    succeeds exactly on the readable values; then it stops at the end of the encoding, has taken
    exactly the attached handles, and returns the value itself exactly when it is settled.
   */
  lemma RoundTrip(env: Env, t: TypeSpec, asOf: Option<nat>, v: Value,
                  buf: seq<byte>, off: nat, handles: seq<nat>, next: nat)
    requires WellTyped(env, t, v)
    requires At(buf, off, Encode(env, t, v)) && |Encode(env, t, v)| < U32
    requires At(handles, next, Attached(env, t, v))
    ensures var r := Decode(env, t, asOf, buf, off, handles, next);
            && (r.Rejected? <==> !Readable(env, t, asOf, v))
            && (Readable(env, t, asOf, v) ==>
                  && r.Done?
                  && r.offset == off + |Encode(env, t, v)|
                  && r.next == next + |Attached(env, t, v)|
                  && (r.value == v <==> Settled(env, t, v)))
  {
    hide Encode, Decode, Receive, Readable, Settled, Attached, WellTyped, Compat, At;
    CompatSelf(env);
    ReceiveOwn(env, t, asOf, v, handles, next);
    Reads(env, env, t, asOf, v, buf, off, handles, next);
  }

  /**
    A whole parameter list: the reader starts at byte 0 and handle 0 of the message the writer
    filled, and uses up both when it succeeds.
   */
  lemma ParamsRoundTrip(env: Env, ts: seq<TypeSpec>, vs: seq<Value>)
    requires AllTyped(env, ts, vs) && |EncodeAll(env, ts, vs)| < U32
    ensures var buf, handles := EncodeAll(env, ts, vs), AttachedAll(env, ts, vs);
            var r := DecodeAll(env, ts, None, buf, 0, handles, 0);
            && (r.Rejected? <==> !AllReadable(env, ts, None, vs))
            && (AllReadable(env, ts, None, vs) ==>
                  && r.Done? && r.offset == |buf| && r.next == |handles|
                  && (r.value == vs <==> AllSettled(env, ts, vs)))
  {
    hide EncodeAll, DecodeAll, ReceiveAll, AllReadable, AllSettled, AttachedAll, AllTyped, Compat;
    var buf, handles := EncodeAll(env, ts, vs), AttachedAll(env, ts, vs);
    assert buf[0..|buf|] == buf && handles[0..|handles|] == handles;
    CompatSelf(env);
    ReceiveOwnAll(env, ts, None, vs, handles, 0);
    ReadsAll(env, env, ts, None, vs, buf, 0, handles, 0);
  }

  /**
    Reading a number where an enum is expected that is declared and not extensible succeeds exactly
    when an entry has that number, no earlier entry has it, and that entry is no newer than the
    version read under.
   */
  lemma EnumReads(env: Env, s: Shape, asOf: Option<nat>, raw: int, buf: seq<byte>, off: nat,
                  handles: seq<nat>, next: nat)
    requires s.Named? && s.kind.EnumRef? && ScalarInRange(Int32, raw)
    requires s.name !in env.extensible && ShapeKey(s) in env.enums
    requires At(buf, off, LittleEndian(4, if raw < 0 then raw + U32 else raw))
    ensures Decode(env, TypeSpec(s, false), asOf, buf, off, handles, next) ==
            if DeclaredAsOf(env.enums[ShapeKey(s)].values, raw, asOf) then Done(VEnum(raw), off + 4, next) else Rejected
  {
    hide LittleEndian, Load, EnumReadable, DeclaredAsOf;
    EnumImage(raw, buf, off);
    EnumCheck(env, s, raw, asOf);
  }

  /** An extensible enum keeps every number. */
  lemma ExtensibleEnumReads(env: Env, s: Shape, asOf: Option<nat>, raw: int, buf: seq<byte>, off: nat,
                            handles: seq<nat>, next: nat)
    requires s.Named? && s.kind.EnumRef? && ScalarInRange(Int32, raw) && s.name in env.extensible
    requires At(buf, off, LittleEndian(4, if raw < 0 then raw + U32 else raw))
    ensures Decode(env, TypeSpec(s, false), asOf, buf, off, handles, next) == Done(VEnum(raw), off + 4, next)
  {
    hide LittleEndian, Load;
    EnumImage(raw, buf, off);
  }

  lemma EnumImage(raw: int, buf: seq<byte>, off: nat)
    requires ScalarInRange(Int32, raw) && At(buf, off, LittleEndian(4, if raw < 0 then raw + U32 else raw))
    ensures Load(4, buf, off).Some? && ScalarOfImage(Int32, Load(4, buf, off).value) == raw
  {
    hide LittleEndian, Load;
    Spans();
    LoadAt(4, ScalarImage(Int32, raw), buf, off);
    ScalarImageInverse(Int32, raw);
  }

  /** Every member is an enum whose number the version declares. */
  predicate EnumsDeclared(env: Env, ts: seq<TypeSpec>, asOf: Option<nat>, vs: seq<Value>) {
    |ts| == |vs| && forall i :: 0 <= i < |vs| ==> EnumDeclared(env, ts[i], asOf, vs[i])
  }

  predicate EnumDeclared(env: Env, t: TypeSpec, asOf: Option<nat>, v: Value) {
    && t.shape.Named? && t.shape.kind.EnumRef? && ShapeKey(t.shape) in env.enums
    && v.VEnum? && ScalarInRange(Int32, v.raw) && DeclaredAsOf(env.enums[ShapeKey(t.shape)].values, v.raw, asOf)
  }

  /** A struct of enums whose numbers its own version knows reads back. */
  lemma StructOfEnumsReadsBack(env: Env, s: Shape, asOf: Option<nat>, v: Value,
                               buf: seq<byte>, off: nat, handles: seq<nat>, next: nat)
    requires s.Named? && s.kind.StructRef? && ShapeKey(s) in env.structs && v.VStruct?
    requires var fields := env.structs[ShapeKey(s)].fields;
             EnumsDeclared(env, FieldTypes(WireFields(fields)), Some(Version(fields)), v.members)
    requires WellTyped(env, TypeSpec(s, false), v)
    requires At(buf, off, Encode(env, TypeSpec(s, false), v)) && |Encode(env, TypeSpec(s, false), v)| < U32
    requires next <= |handles|
    ensures Decode(env, TypeSpec(s, false), asOf, buf, off, handles, next) ==
            Done(v, off + |Encode(env, TypeSpec(s, false), v)|, next)
  {
    hide Decode, Encode, EnumsDeclared, WireFields, Version, WellTyped, Readable, Settled, Attached;
    var fields := env.structs[ShapeKey(s)].fields;
    EnumsRead(env, FieldTypes(WireFields(fields)), Some(Version(fields)), v.members);
    StructReadable(env, s, asOf, v);
    RoundTrip(env, TypeSpec(s, false), asOf, v, buf, off, handles, next);
  }

  lemma StructReadable(env: Env, s: Shape, asOf: Option<nat>, v: Value)
    requires s.Named? && s.kind.StructRef? && ShapeKey(s) in env.structs && v.VStruct?
    requires WellTyped(env, TypeSpec(s, false), v)
    requires var fields := env.structs[ShapeKey(s)].fields;
             var ts := FieldTypes(WireFields(fields));
             && AllTyped(env, ts, v.members) && AllReadable(env, ts, Some(Version(fields)), v.members)
             && AllSettled(env, ts, v.members) && AttachedAll(env, ts, v.members) == []
    ensures var t := TypeSpec(s, false);
            Readable(env, t, asOf, v) && Settled(env, t, v) && Attached(env, t, v) == []
  {
  }

  lemma EnumRead(env: Env, t: TypeSpec, asOf: Option<nat>, v: Value)
    requires EnumDeclared(env, t, asOf, v)
    ensures WellTyped(env, t, v) && Readable(env, t, asOf, v) && Settled(env, t, v) && Attached(env, t, v) == []
  {
    hide DeclaredAsOf;
    assert ShapeTyped(env, t.shape, v) && ShapeReadable(env, t.shape, asOf, v);
    assert ShapeSettled(env, t.shape, v) && AttachedShape(env, t.shape, v) == [];
  }

  lemma {:induction false} EnumsRead(env: Env, ts: seq<TypeSpec>, asOf: Option<nat>, vs: seq<Value>)
    requires EnumsDeclared(env, ts, asOf, vs)
    ensures AllTyped(env, ts, vs) && AllReadable(env, ts, asOf, vs) && AllSettled(env, ts, vs)
    ensures AttachedAll(env, ts, vs) == []
    decreases |vs|
  {
    hide EnumDeclared, WellTyped, Readable, Settled, Attached;
    if vs != [] {
      EnumRead(env, ts[0], asOf, vs[0]);
      assert forall i :: 0 <= i < |vs| - 1 ==> ts[1..][i] == ts[i + 1] && vs[1..][i] == vs[i + 1];
      EnumsRead(env, ts[1..], asOf, vs[1..]);
    }
  }

  /** The size a struct or union records in its frame is the number of bytes it takes up. */
  lemma FrameSizeIsExact(env: Env, s: Shape, v: Value)
    requires s.Named? && !s.kind.EnumRef? && ShapeTyped(env, s, v) && |EncodeShape(env, s, v)| < U32
    ensures |EncodeShape(env, s, v)| >= 8
    ensures FromLittleEndian(EncodeShape(env, s, v)[..4]) == |EncodeShape(env, s, v)|
  {
    hide LittleEndian, FromLittleEndian, EncodeAll, Encode, AllTyped, WellTyped, WireFields, Version;
    var bytes := EncodeShape(env, s, v);
    assert bytes[..4] == LittleEndian(4, |bytes|);
    Spans();
    LoadStore(4, |bytes|);
  }
}
