/**
  The generated WriteX as it runs: fields are appended to the message, and a frame's header is
  reserved first and patched in place once the body's size is known.
 */
module WireWriter {
  import opened Ast
  import opened Bytes
  import opened Schema
  import opened Codec
  import opened Messages

  /** The payload and handles a write adds; the rest of the header stays as it was. */
  twostate predicate Appended(m: Message, payload: seq<byte>, attached: seq<nat>)
    reads m
  {
    && old(m.Valid()) && m.Valid()
    && m.Payload() == old(m.Payload()) + payload
    && m.handles == old(m.handles) + attached
    && m.Routing() == old(m.Routing())
  }

  /** payload_num_bytes() is a uint32_t: everything still to come has to fit it. */
  predicate Room(m: Message, more: nat)
    reads m
  {
    m.Valid() && HEADER + |m.Payload()| + more < U32
  }

  method WriteScalar(m: Message, width: nat, n: nat)
    requires m.Valid()
    modifies m
    ensures Appended(m, LittleEndian(width, n), [])
  {
    m.WritePayload(LittleEndian(width, n));
  }

  method WriteString(m: Message, chars: seq<byte>)
    requires m.Valid()
    modifies m
    ensures Appended(m, LittleEndian(4, |chars|) + chars, [])
  {
    hide LittleEndian, Message.Payload, Message.Routing, Message.Valid, WellFormed;
    WriteScalar(m, 4, |chars|);
    if chars != [] {
      m.WritePayload(chars);
    }
  }

  method WriteStructHeader(m: Message, size: nat, version: nat)
    requires m.Valid()
    modifies m
    ensures Appended(m, LittleEndian(4, size) + LittleEndian(4, version), [])
  {
    hide LittleEndian, Message.Payload, Message.Routing, Message.Valid, WellFormed;
    WriteScalar(m, 4, size);
    WriteScalar(m, 4, version);
  }

  method WriteHandle(m: Message, h: HandleKind, v: Value)
    requires m.Valid() && v.VHandle?
    modifies m
    ensures Appended(m, EncodeHandle(h, v), if InMessageHandle(h) then [v.id] else [])
  {
    hide LittleEndian, Message.Payload, Message.Routing, Message.Valid, WellFormed;
    if InMessageHandle(h) {
      m.AttachHandle(v.id);
    } else {
      WriteScalar(m, 4, v.id);
    }
    if CarriesVersion(h) {
      WriteScalar(m, 4, v.version);
    }
  }

  /** A header reserved at `at`, a body behind it, then the header overwritten: framing done late. */
  lemma FrameByPatching(before: seq<byte>, reserved: seq<byte>, body: seq<byte>, header: seq<byte>)
    requires |reserved| == |header|
    ensures Patch(before + reserved + body, |before|, header) == before + header + body
  {
  }

  lemma FramePatchedTwice(before: seq<byte>, reserved: seq<byte>, body: seq<byte>, a: seq<byte>, b: seq<byte>)
    requires |reserved| == |a| + |b|
    ensures Patch(Patch(before + reserved + body, |before|, a), |before| + |a|, b) == before + (a + b) + body
  {
    var once := Patch(before + reserved + body, |before|, a);
    assert reserved == reserved[..|a|] + reserved[|a|..];
    assert before + reserved + body == before + reserved[..|a|] + (reserved[|a|..] + body);
    FrameByPatching(before, reserved[..|a|], reserved[|a|..] + body, a);
    assert once == (before + a) + reserved[|a|..] + body;
    FrameByPatching(before + a, reserved[|a|..], body, b);
    assert (before + a) + b + body == before + (a + b) + body;
  }

  lemma Regroup<T>(a: seq<T>, b: seq<T>, c: seq<T>)
    ensures (a + b) + c == a + (b + c)
  {
  }

  /** EmitWriteValue's code for one value. */
  method WriteValue(env: Env, m: Message, t: TypeSpec, v: Value)
    requires WellTyped(env, t, v) && Room(m, |Encode(env, t, v)|)
    modifies m
    ensures Appended(m, Encode(env, t, v), Attached(env, t, v))
    decreases v, 1
  {
    hide LittleEndian, EncodeShape, EncodeHandle, AttachedShape,
         Message.Payload, Message.Routing, Message.Valid, WellFormed;
    if t.shape.Handle? {
      var has := v.id != InvalidId(t.shape.handle);
      if t.nullable { WriteFlag(m, has); }
      if !t.nullable || has { WriteHandle(m, t.shape.handle, v); }
    } else {
      if t.nullable { WriteFlag(m, v != VNone); }
      if !t.nullable || v != VNone { WriteShape(env, m, t.shape, v); }
    }
  }

  method WriteFlag(m: Message, has: bool)
    requires m.Valid()
    modifies m
    ensures Appended(m, [if has then 1 else 0], [])
  {
    assert LittleEndian(0, 0) == [];
    WriteScalar(m, 1, if has then 1 else 0);
  }

  method WriteShape(env: Env, m: Message, s: Shape, v: Value)
    requires ShapeTyped(env, s, v) && Room(m, |EncodeShape(env, s, v)|)
    modifies m
    ensures Appended(m, EncodeShape(env, s, v), AttachedShape(env, s, v))
    decreases v, 0, 1
  {
    hide LittleEndian, EncodeAll, AttachedAll, AllTyped, Encode, Attached, WellTyped,
         Message.Payload, Message.Routing, Message.Valid, WellFormed, Patch, WireFields, Version;
    match s {
      case Scalar(k) => WriteScalar(m, Width(k), ScalarImage(k, v.n));
      case String => WriteString(m, v.chars);
      case Array(element, fixedSize) =>
        if fixedSize == 0 {
          WriteScalar(m, 4, |v.elements|);
        }
        WriteAll(env, m, Repeat(element, |v.elements|), v.elements);
      case Map(key, value) =>
        WriteScalar(m, 4, |v.entries| / 2);
        WriteEntries(env, m, key, value, v.entries);
      case Named(kind, _, _, _) =>
        match kind {
          case EnumRef => WriteScalar(m, 4, ScalarImage(Int32, v.raw));
          case StructRef => WriteStruct(env, m, s, v);
          case UnionRef => WriteUnion(env, m, s, v);
        }
    }
  }

  /** EmitStructIO's Write: reserve eight bytes, write the fields in wire order, patch. */
  method WriteStruct(env: Env, m: Message, s: Shape, v: Value)
    requires s.Named? && s.kind.StructRef? && ShapeTyped(env, s, v)
    requires Room(m, |EncodeShape(env, s, v)|)
    modifies m
    ensures Appended(m, EncodeShape(env, s, v), AttachedShape(env, s, v))
    decreases v, 0, 0
  {
    hide LittleEndian, EncodeAll, AttachedAll, AllTyped, Encode, Attached, WellTyped,
         Message.Payload, Message.Routing, Message.Valid, WellFormed, Patch, WireFields, Version;
    var fields := env.structs[ShapeKey(s)].fields;
    var ts := FieldTypes(WireFields(fields));
    ghost var before, body := m.Payload(), EncodeAll(env, ts, v.members);
    var headerOffset := |m.Payload()|;
    WriteStructHeader(m, 0, 0);
    ghost var reserved := LittleEndian(4, 0) + LittleEndian(4, 0);
    WriteAll(env, m, ts, v.members);
    assert m.Payload() == before + reserved + body;
    var size, version := LittleEndian(4, |m.Payload()| - headerOffset), LittleEndian(4, Version(fields));
    m.PatchPayload(headerOffset, size);
    m.PatchPayload(headerOffset + 4, version);
    FramePatchedTwice(before, reserved, body, size, version);
    assert before + (size + version) + body == before + (size + version + body);
  }

  /** EmitUnionIO's Write: reserve the size, write the tag and the active field, patch the size. */
  method WriteUnion(env: Env, m: Message, s: Shape, v: Value)
    requires s.Named? && s.kind.UnionRef? && ShapeTyped(env, s, v)
    requires Room(m, |EncodeShape(env, s, v)|)
    modifies m
    ensures Appended(m, EncodeShape(env, s, v), AttachedShape(env, s, v))
    decreases v, 0, 0
  {
    hide LittleEndian, Encode, Attached, WellTyped, EncodeAll, AttachedAll, AllTyped,
         Message.Payload, Message.Routing, Message.Valid, WellFormed, Patch;
    ghost var before := m.Payload();
    var headerOffset := |m.Payload()|;
    WriteScalar(m, 4, 0);
    ghost var reserved := LittleEndian(4, 0);
    ghost var body;
    if v.VUnknown? {
      WriteScalar(m, 4, U32 - 1);
      body := LittleEndian(4, U32 - 1);
    } else {
      var t := FieldByTag(env.unions[ShapeKey(s)].fields, v.tag).value.fieldType;
      WriteScalar(m, 4, v.tag);
      WriteValue(env, m, t, v.payload);
      body := LittleEndian(4, v.tag) + Encode(env, t, v.payload);
    }
    assert m.Payload() == before + reserved + body;
    var size := LittleEndian(4, |m.Payload()| - headerOffset);
    m.PatchPayload(headerOffset, size);
    FrameByPatching(before, reserved, body, size);
    assert before + size + body == before + (size + body);
  }

  /** One value after another: array elements, the fields of a struct, or a parameter list. */
  method WriteAll(env: Env, m: Message, ts: seq<TypeSpec>, vs: seq<Value>)
    requires AllTyped(env, ts, vs) && Room(m, |EncodeAll(env, ts, vs)|)
    modifies m
    ensures Appended(m, EncodeAll(env, ts, vs), AttachedAll(env, ts, vs))
    decreases vs, 2
  {
    hide Encode, Attached, WellTyped, EncodeAll, AttachedAll, AllTyped,
         Message.Payload, Message.Routing, Message.Valid, WellFormed, Patch;
    assert ts[0..] == ts && vs[0..] == vs;
    var i := 0;
    while i < |vs|
      invariant 0 <= i <= |vs| && m.Valid() && m.Routing() == old(m.Routing())
      invariant AllTyped(env, ts[i..], vs[i..])
      invariant m.Payload() + EncodeAll(env, ts[i..], vs[i..]) == old(m.Payload()) + EncodeAll(env, ts, vs)
      invariant m.handles + AttachedAll(env, ts[i..], vs[i..]) == old(m.handles) + AttachedAll(env, ts, vs)
    {
      WriteStep(env, ts, vs, i, m.Payload(), m.handles);
      WriteValue(env, m, ts[i], vs[i]);
      i := i + 1;
    }
    WriteNothing(env);
    assert ts[i..] == [] && vs[i..] == [];
  }

  /** The entries of a map, key before value. */
  method WriteEntries(env: Env, m: Message, key: TypeSpec, value: TypeSpec, entries: seq<Value>)
    requires |entries| % 2 == 0
    requires AllTyped(env, Alternate(key, value, |entries| / 2), entries)
    requires Room(m, |EncodeAll(env, Alternate(key, value, |entries| / 2), entries)|)
    modifies m
    ensures Appended(m, EncodeAll(env, Alternate(key, value, |entries| / 2), entries),
                     AttachedAll(env, Alternate(key, value, |entries| / 2), entries))
    decreases entries, 2
  {
    hide Encode, Attached, WellTyped, EncodeAll, AttachedAll, AllTyped, Alternate,
         Message.Payload, Message.Routing, Message.Valid, WellFormed, Patch;
    ghost var ts := Alternate(key, value, |entries| / 2);
    assert ts[0..] == ts && entries[0..] == entries;
    var i := 0;
    while i < |entries|
      invariant 0 <= i <= |entries| && i % 2 == 0 && m.Valid() && m.Routing() == old(m.Routing())
      invariant AllTyped(env, ts[i..], entries[i..])
      invariant m.Payload() + EncodeAll(env, ts[i..], entries[i..]) == old(m.Payload()) + EncodeAll(env, ts, entries)
      invariant m.handles + AttachedAll(env, ts[i..], entries[i..]) == old(m.handles) + AttachedAll(env, ts, entries)
    {
      WriteStep(env, ts, entries, i, m.Payload(), m.handles);
      WriteValue(env, m, key, entries[i]) by {
        Alternation(key, value, |entries| / 2, i);
      }
      WriteStep(env, ts, entries, i + 1, m.Payload(), m.handles);
      WriteValue(env, m, value, entries[i + 1]) by {
        Alternation(key, value, |entries| / 2, i);
      }
      Alternation(key, value, |entries| / 2, i);
      i := i + 2;
    }
    WriteNothing(env);
    assert ts[i..] == [] && entries[i..] == [];
  }

  lemma Alternation(key: TypeSpec, value: TypeSpec, n: nat, i: nat)
    requires i % 2 == 0 && i < 2 * n
    ensures Alternate(key, value, n)[i] == key && Alternate(key, value, n)[i + 1] == value
  {
  }

  lemma WriteNothing(env: Env)
    ensures AllTyped(env, [], [])
    ensures EncodeAll(env, [], []) == [] && AttachedAll(env, [], []) == []
  {
  }

  /** Moving the i-th value of a list from what is still to be written to what has been. */
  lemma WriteStep(env: Env, ts: seq<TypeSpec>, vs: seq<Value>, i: nat, payload: seq<byte>, handles: seq<nat>)
    requires i < |vs| && |ts| == |vs| && AllTyped(env, ts[i..], vs[i..])
    ensures WellTyped(env, ts[i], vs[i]) && AllTyped(env, ts[i + 1..], vs[i + 1..])
    ensures payload + EncodeAll(env, ts[i..], vs[i..]) ==
            payload + Encode(env, ts[i], vs[i]) + EncodeAll(env, ts[i + 1..], vs[i + 1..])
    ensures handles + AttachedAll(env, ts[i..], vs[i..]) ==
            handles + Attached(env, ts[i], vs[i]) + AttachedAll(env, ts[i + 1..], vs[i + 1..])
  {
    hide Encode, Attached, WellTyped;
    assert ts[i..][1..] == ts[i + 1..] && vs[i..][1..] == vs[i + 1..];
    Regroup(payload, Encode(env, ts[i], vs[i]), EncodeAll(env, ts[i + 1..], vs[i + 1..]));
    Regroup(handles, Attached(env, ts[i], vs[i]), AttachedAll(env, ts[i + 1..], vs[i + 1..]));
  }
}
