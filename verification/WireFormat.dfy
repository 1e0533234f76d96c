/**
  The bytes themselves: what each kind of value looks like on the wire, and which frames a reader
  takes.
 */
module WireFormat {
  import opened Ast
  import opened Bytes
  import opened Schema
  import opened Codec
  import opened Wrappers

  // ----- numbers -----

  /** n divided by 256, i times over. */
  function Shifted(n: nat, i: nat): nat { if i == 0 then n else Shifted(n / 256, i - 1) }

  /** The lowest byte comes first. */
  lemma {:induction false} ByteOrder(w: nat, n: nat, i: nat)
    requires i < w
    ensures LittleEndian(w, n)[i] == Shifted(n, i) % 256
  {
    if i > 0 { ByteOrder(w - 1, n / 256, i - 1); }
  }

  /** Each scalar type's C++ range. */
  lemma ScalarRanges(n: int)
    ensures ScalarInRange(Bool, n) <==> n == 0 || n == 1
    ensures ScalarInRange(Int8, n) <==> -0x80 <= n < 0x80
    ensures ScalarInRange(Uint8, n) <==> 0 <= n < 0x100
    ensures ScalarInRange(Int16, n) <==> -0x8000 <= n < 0x8000
    ensures ScalarInRange(Uint16, n) <==> 0 <= n < 0x1_0000
    ensures ScalarInRange(Int32, n) <==> -0x8000_0000 <= n < 0x8000_0000
    ensures ScalarInRange(Uint32, n) <==> 0 <= n < 0x1_0000_0000
    ensures ScalarInRange(Int64, n) <==> -0x8000_0000_0000_0000 <= n < 0x8000_0000_0000_0000
    ensures ScalarInRange(Uint64, n) <==> 0 <= n < 0x1_0000_0000_0000_0000
    ensures ScalarInRange(Float, n) <==> 0 <= n < 0x1_0000_0000
    ensures ScalarInRange(Double, n) <==> 0 <= n < 0x1_0000_0000_0000_0000
  {
    Spans();
  }

  function ScalarType(k: ScalarKind): TypeSpec { TypeSpec(Scalar(k), false) }

  /** How many bytes each takes up, and which: two's complement for a negative number. */
  lemma ScalarFormat(env: Env, k: ScalarKind, n: int)
    requires WellTyped(env, ScalarType(k), VScalar(n))
    ensures var bytes := Encode(env, ScalarType(k), VScalar(n));
            && (k.Bool? || k.Int8? || k.Uint8? ==> |bytes| == 1)
            && (k.Int16? || k.Uint16? ==> |bytes| == 2)
            && (k.Int32? || k.Uint32? || k.Float? ==> |bytes| == 4)
            && (k.Int64? || k.Uint64? || k.Double? ==> |bytes| == 8)
            && FromLittleEndian(bytes) == if n >= 0 then n else n + Span(|bytes|)
  {
    hide LittleEndian, FromLittleEndian, Span;
    Spans();
    assert ShapeTyped(env, Scalar(k), VScalar(n));
    assert Encode(env, ScalarType(k), VScalar(n)) == LittleEndian(Width(k), ScalarImage(k, n));
    LoadStore(Width(k), ScalarImage(k, n));
  }

  /** Any byte but zero reads as true. */
  lemma BoolReads(env: Env, asOf: Option<nat>, buf: seq<byte>, off: nat, handles: seq<nat>, next: nat)
    requires off < |buf|
    ensures Decode(env, ScalarType(Bool), asOf, buf, off, handles, next) ==
            Done(VScalar(if buf[off] == 0 then 0 else 1), off + 1, next)
  {
    assert buf[off..off + 1] == [buf[off]] && [buf[off]][1..] == [];
    assert FromLittleEndian([]) == 0;
    assert FromLittleEndian([buf[off]]) == buf[off];
  }

  /** In front of an optional value any byte but zero says that it is there; an absent handle is the invalid one. */
  lemma OptionalReads(env: Env, s: Shape, asOf: Option<nat>, buf: seq<byte>, off: nat, handles: seq<nat>, next: nat)
    requires off < |buf|
    ensures Decode(env, TypeSpec(s, true), asOf, buf, off, handles, next) ==
      if buf[off] != 0 then Decode(env, TypeSpec(s, false), asOf, buf, off + 1, handles, next)
      else if !s.Handle? then Done(VNone, off + 1, next)
      else if s.handle == PendingAssociatedRemote || s.handle == PendingAssociatedReceiver then
        Done(VHandle(0xFFFF_FFFF, 0), off + 1, next)
      else Done(VHandle(0, 0), off + 1, next)
  {
    hide DecodeShape, DecodeHandle;
    assert buf[off..off + 1] == [buf[off]] && [buf[off]][1..] == [];
    assert FromLittleEndian([]) == 0;
    assert FromLittleEndian([buf[off]]) == buf[off];
  }

  // ----- handles -----

  function HandleType(h: HandleKind, nullable: bool): TypeSpec { TypeSpec(Handle(h, "", ""), nullable) }

  /** What a handle or endpoint leaves in the payload and in the handle list. */
  lemma HandleFormat(env: Env, h: HandleKind, v: Value)
    requires WellTyped(env, HandleType(h, false), v)
    ensures v.VHandle? && Encode(env, HandleType(h, false), v) ==
      if h == PendingRemote then LittleEndian(4, v.version)
      else if h == PendingAssociatedRemote then LittleEndian(4, v.id) + LittleEndian(4, v.version)
      else if h == PendingAssociatedReceiver then LittleEndian(4, v.id)
      else []
    ensures Attached(env, HandleType(h, false), v) ==
      if h == PendingAssociatedRemote || h == PendingAssociatedReceiver then [] else [v.id]
  {
    hide LittleEndian;
    assert [] + LittleEndian(4, v.version) == LittleEndian(4, v.version);
    assert LittleEndian(4, v.id) + [] == LittleEndian(4, v.id);
  }

  /** A nullable one has a byte in front; it is absent when its id is 0, or 0xFFFFFFFF for an associated one. */
  lemma NullableHandleFormat(env: Env, h: HandleKind, v: Value)
    requires WellTyped(env, HandleType(h, true), v)
    ensures v.VHandle? && WellTyped(env, HandleType(h, false), v)
    ensures var absent := v.id == if h == PendingAssociatedRemote || h == PendingAssociatedReceiver then 0xFFFF_FFFF else 0;
            && Encode(env, HandleType(h, true), v) ==
                 (if absent then [0] else [1] + Encode(env, HandleType(h, false), v))
            && Attached(env, HandleType(h, true), v) == (if absent then [] else Attached(env, HandleType(h, false), v))
  {
  }

  // ----- values -----

  /** An optional value has a byte in front that says if it is there. */
  lemma OptionalFormat(env: Env, s: Shape, v: Value)
    requires !s.Handle? && WellTyped(env, TypeSpec(s, true), v)
    ensures v == VNone ==> Encode(env, TypeSpec(s, true), v) == [0]
    ensures v != VNone ==> WellTyped(env, TypeSpec(s, false), v)
    ensures v != VNone ==> Encode(env, TypeSpec(s, true), v) == [1] + Encode(env, TypeSpec(s, false), v)
  {
  }

  /** The bytes of members one after the other. */
  lemma {:induction false} ListFormat(env: Env, ts: seq<TypeSpec>, vs: seq<Value>, i: nat)
    requires AllTyped(env, ts, vs) && i < |vs|
    ensures WellTyped(env, ts[i], vs[i]) && AllTyped(env, ts[..i], vs[..i]) && AllTyped(env, ts[i + 1..], vs[i + 1..])
    ensures EncodeAll(env, ts, vs) ==
            EncodeAll(env, ts[..i], vs[..i]) + Encode(env, ts[i], vs[i]) + EncodeAll(env, ts[i + 1..], vs[i + 1..])
    decreases i
  {
    hide Encode, WellTyped;
    if i == 0 {
      assert ts[..0] == [] && vs[..0] == [];
      assert [] + Encode(env, ts[0], vs[0]) == Encode(env, ts[0], vs[0]);
    } else {
      ListFormat(env, ts[1..], vs[1..], i - 1);
      assert ts[..i][1..] == ts[1..][..i - 1] && vs[..i][1..] == vs[1..][..i - 1];
      assert ts[1..][i..] == ts[i + 1..] && vs[1..][i..] == vs[i + 1..];
    }
  }

  /** Strings, arrays and maps begin with their count, but for a fixed-size array. */
  lemma CountedFormat(env: Env, s: Shape, v: Value)
    requires ShapeTyped(env, s, v)
    ensures s.String? ==> EncodeShape(env, s, v) == LittleEndian(4, |v.chars|) + v.chars
    ensures s.Array? ==>
      && AllTyped(env, seq(|v.elements|, _ => s.element), v.elements)
      && var all := EncodeAll(env, seq(|v.elements|, _ => s.element), v.elements);
      EncodeShape(env, s, v) == if s.fixedSize > 0 then all else LittleEndian(4, |v.elements|) + all
    ensures s.Map? ==>
      && AllTyped(env, Alternate(s.key, s.value, |v.entries| / 2), v.entries)
      && EncodeShape(env, s, v) ==
         LittleEndian(4, |v.entries| / 2) + EncodeAll(env, Alternate(s.key, s.value, |v.entries| / 2), v.entries)
  {
    hide LittleEndian, EncodeAll, AllTyped;
    if s.Array? {
      var ts := seq(|v.elements|, _ => s.element);
      assert ts == Repeat(s.element, |v.elements|);
      assert [] + EncodeAll(env, ts, v.elements) == EncodeAll(env, ts, v.elements);
    }
  }

  /** A map's keys and values take turns. */
  lemma EntriesAlternate(key: TypeSpec, value: TypeSpec, n: nat, i: nat)
    requires i < n
    ensures |Alternate(key, value, n)| == 2 * n
    ensures Alternate(key, value, n)[2 * i] == key && Alternate(key, value, n)[2 * i + 1] == value
  {
  }

  /** An enum is its number, as an int32. */
  lemma EnumFormat(env: Env, s: Shape, v: Value)
    requires s.Named? && s.kind.EnumRef? && ShapeTyped(env, s, v)
    ensures v.VEnum? && EncodeShape(env, s, v) == LittleEndian(4, if v.raw < 0 then v.raw + 0x1_0000_0000 else v.raw)
  {
    hide LittleEndian;
    Spans();
  }

  /** A struct is its size, its version and its members. */
  lemma StructFormat(env: Env, s: Shape, v: Value)
    requires s.Named? && s.kind.StructRef? && ShapeTyped(env, s, v)
    ensures var fields := env.structs[ShapeKey(s)].fields;
            var all := EncodeShape(env, s, v);
            && all[..4] == LittleEndian(4, |all|) && all[4..8] == LittleEndian(4, Version(fields))
            && all[8..] == EncodeAll(env, FieldTypes(WireFields(fields)), v.members)
  {
    hide LittleEndian, EncodeAll, AllTyped;
  }

  /** A union is its size, its tag and the value of that tag; the unknown tag is -1 and has no value. */
  lemma UnionFormat(env: Env, s: Shape, v: Value)
    requires s.Named? && s.kind.UnionRef? && ShapeTyped(env, s, v)
    ensures var all := EncodeShape(env, s, v);
            && |all| >= 8 && all[..4] == LittleEndian(4, |all|)
            && (v.VUnknown? ==> all[4..] == LittleEndian(4, 0xFFFF_FFFF))
            && (v.VUnion? ==>
                  && all[4..8] == LittleEndian(4, v.tag)
                  && FieldByTag(env.unions[ShapeKey(s)].fields, v.tag).Some?
                  && var t := FieldByTag(env.unions[ShapeKey(s)].fields, v.tag).value.fieldType;
                  WellTyped(env, t, v.payload) && all[8..] == Encode(env, t, v.payload))
  {
    hide LittleEndian, Encode, WellTyped;
  }

  // ----- which frames are taken -----

  /** Two four-byte numbers at `off`. */
  predicate Frame(buf: seq<byte>, off: nat, first: nat, second: nat) {
    At(buf, off, LittleEndian(4, first) + LittleEndian(4, second)) && first < U32 && second < U32
  }

  lemma FrameLoads(buf: seq<byte>, off: nat, first: nat, second: nat)
    requires Frame(buf, off, first, second)
    ensures Load(4, buf, off) == Some(first) && Load(4, buf, off + 4) == Some(second)
    ensures off + 8 <= |buf|
  {
    hide LittleEndian, Load;
    Spans();
    AtConcat(buf, off, LittleEndian(4, first), LittleEndian(4, second));
    LoadAt(4, first, buf, off);
    LoadAt(4, second, buf, off + 4);
  }

  /** A struct without fields is taken exactly when its size is at least 8 and it ends inside the payload. */
  lemma EmptyStructReads(env: Env, d: StructDecl, buf: seq<byte>, off: nat, size: nat, version: nat,
                         handles: seq<nat>, next: nat)
    requires d.fields == [] && Frame(buf, off, size, version)
    ensures DecodeStruct(env, d, buf, off, handles, next) ==
            if size >= 8 && off + size <= |buf| then Done(VStruct([]), off + size, next) else Rejected
  {
    hide Frame, Load;
    FrameLoads(buf, off, size, version);
    assert WireFields([]) == [];
    assert ReadCount([], version) == 0;
    var none: seq<StructField> := [];
    assert none[..0] == [] && none[0..] == [] && FieldTypes(none) == [] && Initials(none) == [];
    assert [] + Initials(none) == [];
  }

  /** A union with a tag nobody knows is taken exactly when it is extensible, its size is at least 4 and it ends inside. */
  lemma UnknownTagReads(env: Env, u: UnionDecl, buf: seq<byte>, off: nat, size: nat, tag: nat,
                        handles: seq<nat>, next: nat)
    requires Frame(buf, off, size, tag) && forall f <- u.fields :: f.tag != tag
    ensures DecodeUnion(env, u, buf, off, handles, next) ==
            if u.isExtensible && size >= 4 && off + size <= |buf| then Done(UnknownTag(u), off + size, next) else Rejected
  {
    hide Frame, Load;
    FrameLoads(buf, off, size, tag);
    assert FieldByTag(u.fields, tag).None?;
  }

  /** Less than a frame is taken by neither. */
  lemma ShortFrames(env: Env, d: StructDecl, u: UnionDecl, buf: seq<byte>, off: nat, handles: seq<nat>, next: nat)
    requires off <= |buf| < off + 8
    ensures DecodeStruct(env, d, buf, off, handles, next) == Rejected
    ensures DecodeUnion(env, u, buf, off, handles, next) == Rejected
  {
  }

  /** A string is taken exactly when all its bytes are there. */
  lemma StringReads(env: Env, asOf: Option<nat>, buf: seq<byte>, off: nat, n: nat, handles: seq<nat>, next: nat)
    requires At(buf, off, LittleEndian(4, n)) && n < U32
    ensures Decode(env, TypeSpec(String, false), asOf, buf, off, handles, next) ==
            if off + 4 + n <= |buf| then Done(VString(buf[off + 4..off + 4 + n]), off + 4 + n, next) else Rejected
  {
    hide LittleEndian, Load;
    Spans();
    LoadAt(4, n, buf, off);
  }

  // ----- what an unknown tag becomes -----

  predicate LastDefault(fields: seq<UnionField>, i: nat)
    requires i < |fields|
  {
    fields[i].isDefault && forall j :: i < j < |fields| ==> !fields[j].isDefault
  }

  lemma {:induction false} DefaultIsLast(fields: seq<UnionField>)
    ensures (forall i :: 0 <= i < |fields| ==> !fields[i].isDefault) ==> DefaultField(fields) == None
    ensures forall i :: 0 <= i < |fields| && LastDefault(fields, i) ==> DefaultField(fields) == Some(fields[i])
  {
    if fields != [] {
      DefaultIsLast(fields[1..]);
      forall i | 0 <= i < |fields| && LastDefault(fields, i) ensures DefaultField(fields) == Some(fields[i]) {
        if i > 0 {
          assert LastDefault(fields[1..], i - 1);
        } else {
          assert forall j :: 0 <= j < |fields[1..]| ==> fields[1..][j] == fields[j + 1];
        }
      }
    }
  }

  /** The last field marked [Default], holding the value it starts with; the unknown tag if none is marked. */
  lemma UnknownTagBecomes(u: UnionDecl)
    ensures (forall i :: 0 <= i < |u.fields| ==> !u.fields[i].isDefault) ==> UnknownTag(u) == VUnknown
    ensures forall i :: 0 <= i < |u.fields| && LastDefault(u.fields, i) ==>
              UnknownTag(u) == VUnion(u.fields[i].tag, u.fields[i].initial)
  {
    DefaultIsLast(u.fields);
  }
}
