/**
  Version skew: a schema and an older cut of it, in either role, for every struct and union
  at once. The newer one may declare types the older one lacks, and nothing is assumed about the
  two schemas' enums or [Extensible] marks.
 */
module Skew {
  import opened Ast
  import opened Bytes
  import opened Schema
  import opened WireOrder
  import opened Codec
  import opened Evolution
  import opened Routing
  import opened Wrappers

  function UnionUpTo(fields: seq<UnionField>, k: nat): seq<UnionField> {
    if fields == [] then []
    else (if fields[0].minVersion <= k then [fields[0]] else []) + UnionUpTo(fields[1..], k)
  }

  predicate DistinctTags(fields: seq<UnionField>) {
    forall i, j :: 0 <= i < j < |fields| ==> fields[i].tag != fields[j].tag
  }

  /** `older` has some of the structs and unions of `newer`, each cut to the fields of its own past version. */
  ghost predicate IsOlder(older: Env, newer: Env, level: string -> nat) {
    && older.structs.Keys <= newer.structs.Keys
    && older.unions.Keys <= newer.unions.Keys
    && (forall k <- older.structs :: older.structs[k].fields == UpTo(newer.structs[k].fields, level(k)))
    && (forall k <- older.unions :: older.unions[k].fields == UnionUpTo(newer.unions[k].fields, level(k)))
    && (forall k <- older.unions :: DistinctTags(newer.unions[k].fields))
  }

  lemma {:induction false} CutUnionTag(fields: seq<UnionField>, k: nat, tag: nat)
    requires DistinctTags(fields)
    ensures FieldByTag(UnionUpTo(fields, k), tag).Some? ==>
              FieldByTag(fields, tag) == FieldByTag(UnionUpTo(fields, k), tag)
  {
    if fields != [] {
      CutUnionTag(fields[1..], k, tag);
      var cut := UnionUpTo(fields[1..], k);
      if fields[0].minVersion <= k {
        assert UnionUpTo(fields, k)[1..] == cut;
      } else {
        assert UnionUpTo(fields, k) == cut;
      }
    }
  }

  /** The two can talk both ways. */
  lemma OlderIsCompatible(older: Env, newer: Env, level: string -> nat)
    requires IsOlder(older, newer, level)
    ensures Compat(newer, older) && Compat(older, newer)
  {
    forall k | k in older.structs
      ensures StructCompat(newer.structs[k], older.structs[k]) && StructCompat(older.structs[k], newer.structs[k])
    {
      CutReadCounts(newer.structs[k].fields, level(k));
    }
    forall k | k in older.unions
      ensures UnionCompat(newer.unions[k], older.unions[k]) && UnionCompat(older.unions[k], newer.unions[k])
    {
      forall tag: nat
        ensures FieldByTag(older.unions[k].fields, tag).Some? ==>
                  FieldByTag(newer.unions[k].fields, tag) == FieldByTag(older.unions[k].fields, tag)
      {
        CutUnionTag(newer.unions[k].fields, level(k), tag);
      }
    }
  }

  /** How the read of a receipt without a value ends. */
  function Failed<T>(rc: Receipt<T>): Outcome<Value>
    requires !rc.Got?
  {
    if rc.Refused? then Rejected else NoHandle
  }

  /**
    An old reader of a new struct gets the old fields of it, read in turn, and nothing else; it
    stops at the end of the whole struct.
   */
  lemma OldReaderOfNewStruct(older: Env, newer: Env, level: string -> nat, s: Shape, asOf: Option<nat>, v: Value,
                             buf: seq<byte>, off: nat, handles: seq<nat>, next: nat)
    requires IsOlder(older, newer, level) && Compat(newer, older)
    requires s.Named? && s.kind.StructRef? && ShapeTyped(newer, s, v) && ShapeKey(s) in older.structs
    requires At(buf, off, EncodeShape(newer, s, v)) && |EncodeShape(newer, s, v)| < U32
    ensures var fields := newer.structs[ShapeKey(s)].fields;
            var kept := |WireFields(UpTo(fields, level(ShapeKey(s))))|;
            && kept <= |v.members|
            && AllTyped(newer, FieldTypes(WireFields(fields))[..kept], v.members[..kept])
            && var rc := ReceiveAll(newer, older, FieldTypes(WireFields(fields))[..kept], Some(Version(fields)),
                                    v.members[..kept], handles, next);
            DecodeShape(older, s, asOf, buf, off, handles, next) ==
              if rc.Got? then Done(VStruct(rc.value), off + |EncodeShape(newer, s, v)|, rc.next)
              else Failed(rc)
  {
    hide ReceiveAll, DecodeAll, EncodeAll, AllTyped, Compat, At, DecodeShape, Decode, Encode, WellTyped, Receive, ReadCount,
         UpTo, WireFields, Version, EncodeShape, Initials, UnionUpTo, DistinctTags, FieldByTag, DecodeStruct, DecodeUnion,
         StructCompat, UnionCompat, EmplaceAll, EnumReadable;
    var fields := newer.structs[ShapeKey(s)].fields;
    var cut := WireFields(UpTo(fields, level(ShapeKey(s))));
    CutReadCounts(fields, level(ShapeKey(s)));
    SplitTyped(newer, FieldTypes(WireFields(fields)), v.members, |cut|);
    assert cut[|cut|..] == [] && Initials(cut[|cut|..]) == [];
    ReadsStruct(newer, older, s, asOf, v, buf, off, handles, next);
    var rc := ReceiveAll(newer, older, FieldTypes(WireFields(fields))[..|cut|], Some(Version(fields)), v.members[..|cut|],
                         handles, next);
    if rc.Got? { assert rc.value + Initials(cut[|cut|..]) == rc.value; }
  }

  /** The fields a cut drops come last on the wire, and a reader of the cut's version skips just them. */
  lemma NewFieldsTrail(fields: seq<StructField>, k: nat)
    ensures var wire, cut := WireFields(fields), WireFields(UpTo(fields, k));
            && |cut| <= |wire| && cut == wire[..|cut|]
            && ReadCount(wire, Version(UpTo(fields, k))) == |cut|
            && (forall i :: 0 <= i < |cut| ==> wire[i].minVersion <= k)
            && (forall i :: |cut| <= i < |wire| ==> wire[i].minVersion > k)
  {
    hide UpTo, InsertField, WireFields, ReadCount, Version;
    CutReadCounts(fields, k);
    WireMembers(fields);
    ReadCountSplits(WireFields(fields), k);
    OlderIsPrefix(fields, k);
  }

  /**
    A new reader of an old struct gets every old field, and leaves the fields added since at the
    value the C++ member starts with.
   */
  lemma NewReaderOfOldStruct(older: Env, newer: Env, level: string -> nat, s: Shape, asOf: Option<nat>, v: Value,
                             buf: seq<byte>, off: nat, handles: seq<nat>, next: nat)
    requires IsOlder(older, newer, level) && Compat(older, newer)
    requires s.Named? && s.kind.StructRef? && ShapeTyped(older, s, v)
    requires At(buf, off, EncodeShape(older, s, v)) && |EncodeShape(older, s, v)| < U32
    ensures var fields := older.structs[ShapeKey(s)].fields;
            var wire := WireFields(newer.structs[ShapeKey(s)].fields);
            && |v.members| <= |wire|
            && (forall i :: 0 <= i < |v.members| ==> wire[i].minVersion <= level(ShapeKey(s)))
            && (forall i :: |v.members| <= i < |wire| ==> wire[i].minVersion > level(ShapeKey(s)))
            && var rc := ReceiveAll(older, newer, FieldTypes(WireFields(fields)), Some(Version(fields)), v.members,
                                    handles, next);
            DecodeShape(newer, s, asOf, buf, off, handles, next) ==
              if rc.Got? then Done(VStruct(rc.value + Initials(wire[|v.members|..])),
                                   off + |EncodeShape(older, s, v)|, rc.next)
              else Failed(rc)
  {
    hide ReceiveAll, DecodeAll, EncodeAll, AllTyped, Compat, At, DecodeShape, Decode, Encode, WellTyped, Receive, ReadCount,
         UpTo, WireFields, Version, EncodeShape;
    var cut := WireFields(older.structs[ShapeKey(s)].fields);
    NewFieldsTrail(newer.structs[ShapeKey(s)].fields, level(ShapeKey(s)));
    assert FieldTypes(cut)[..|cut|] == FieldTypes(cut) && v.members[..|cut|] == v.members;
    ReadsStruct(older, newer, s, asOf, v, buf, off, handles, next);
  }

  /** A tag the reader does not have is skipped whole when its union is [Extensible], refused otherwise. */
  lemma UnknownTagIsSkipped(w: Env, r: Env, s: Shape, asOf: Option<nat>, v: Value,
                            buf: seq<byte>, off: nat, handles: seq<nat>, next: nat)
    requires Compat(w, r) && s.Named? && s.kind.UnionRef? && ShapeTyped(w, s, v) && ShapeKey(s) in r.unions
    requires v.VUnion? && FieldByTag(r.unions[ShapeKey(s)].fields, v.tag).None?
    requires At(buf, off, EncodeShape(w, s, v)) && |EncodeShape(w, s, v)| < U32
    ensures DecodeShape(r, s, asOf, buf, off, handles, next) ==
              if r.unions[ShapeKey(s)].isExtensible
              then Done(UnknownTag(r.unions[ShapeKey(s)]), off + |EncodeShape(w, s, v)|, next)
              else Rejected
  {
    ReadsUnion(w, r, s, asOf, v, buf, off, handles, next);
  }

  // ----- handles across a skip -----

  /**
    Whatever handles come with the bytes, a read that succeeds stops at the end of the encoding
    and has moved the handle index by the handles of the parts it did not jump over; that is
    where the writer's index was exactly when no skipped part carried a handle. With the writer's
    own handles it never runs out of them.
   */
  lemma HandlesInSync(w: Env, r: Env, t: TypeSpec, asOf: Option<nat>, v: Value,
                      buf: seq<byte>, off: nat, handles: seq<nat>, next: nat)
    requires Compat(w, r) && WellTyped(w, t, v)
    requires At(buf, off, Encode(w, t, v)) && |Encode(w, t, v)| < U32
    ensures var d := Decode(r, t, asOf, buf, off, handles, next);
            && (d.Done? ==>
                  && d.offset == off + |Encode(w, t, v)|
                  && d.next == next + |Kept(w, r, t, v)|
                  && (d.next == next + |Attached(w, t, v)| <==> SkipsNoHandles(w, r, t, v)))
            && (d.NoHandle? ==> !At(handles, next, Attached(w, t, v)))
  {
    hide Encode, Decode, Receive, Kept, Attached, SkipsNoHandles, WellTyped, Compat;
    Reads(w, r, t, asOf, v, buf, off, handles, next);
    TakesKept(w, r, t, asOf, v, handles, next);
    KeptFits(w, r, t, v);
  }

  /**
    With the writer's handles behind `next`, the read gives what each part would be with its own
    handle when the kept parts' handles lead the attached ones - and, if no map key can change,
    only then.
   */
  lemma RightHandles(w: Env, r: Env, t: TypeSpec, asOf: Option<nat>, v: Value,
                     buf: seq<byte>, off: nat, handles: seq<nat>, next: nat)
    requires Compat(w, r) && WellTyped(w, t, v)
    requires At(buf, off, Encode(w, t, v)) && |Encode(w, t, v)| < U32
    requires At(handles, next, Attached(w, t, v))
    ensures var d := Decode(r, t, asOf, buf, off, handles, next);
            var kept := Kept(w, r, t, v);
            var own := Receive(w, r, t, asOf, v, kept, 0);
            && (d.Done? <==> own.Got?) && (d.Rejected? <==> own.Refused?)
            && (d.Done? && kept <= Attached(w, t, v) ==> d.value == own.value)
            && (d.Done? && PlainKeys(w, r, t, v) && d.value == own.value ==> kept <= Attached(w, t, v))
  {
    hide Encode, Decode, Receive, Kept, Attached, SkipsNoHandles, WellTyped, Compat, PlainKeys;
    var kept, attached := Kept(w, r, t, v), Attached(w, t, v);
    Reads(w, r, t, asOf, v, buf, off, handles, next);
    KeptFits(w, r, t, v);
    ReceiveAlike(w, r, t, asOf, v, handles, next, kept, 0);
    assert Window(handles, next, |kept|) == attached[..|kept|];
    assert Window(kept, 0, |kept|) == kept;
  }

  /**
    Version skew for any type, any bytes around and any handles: the outcome under either schema
    of what the other one wrote.
   */
  lemma SkewedRead(w: Env, r: Env, older: Env, newer: Env, level: string -> nat,
                   t: TypeSpec, asOf: Option<nat>, v: Value,
                   buf: seq<byte>, off: nat, handles: seq<nat>, next: nat)
    requires IsOlder(older, newer, level) && ((w == newer && r == older) || (w == older && r == newer))
    requires WellTyped(w, t, v)
    requires At(buf, off, Encode(w, t, v)) && |Encode(w, t, v)| < U32
    ensures Compat(w, r)
    ensures Decode(r, t, asOf, buf, off, handles, next) ==
            Expected(Receive(w, r, t, asOf, v, handles, next), off + |Encode(w, t, v)|)
  {
    hide Encode, Decode, Receive, WellTyped, IsOlder, Compat, At;
    OlderIsCompatible(older, newer, level);
    Reads(w, r, t, asOf, v, buf, off, handles, next);
  }

  /**
    What it costs to skip a handle: the handle parameter after a value gets its own handle
    exactly when no skipped part of the value carried one, and one of the value's otherwise.
   */
  lemma SkippedHandleIsMisrouted(w: Env, r: Env, t: TypeSpec, v: Value, param: TypeSpec, id: nat)
    requires Compat(w, r) && WellTyped(w, t, v)
    requires param.shape == Handle(AnyHandle, "", "") && !param.nullable && id < U32
    requires |Encode(w, t, v)| < U32 && id !in Attached(w, t, v)
    ensures var handles := Attached(w, t, v) + [id];
            var n := |Kept(w, r, t, v)|;
            var rc := Receive(w, r, t, None, v, handles, 0);
            && n < |handles| && (handles[n] == id <==> SkipsNoHandles(w, r, t, v))
            && DecodeAll(r, [t, param], None, Encode(w, t, v), 0, handles, 0) ==
               if rc.Got? then Done([rc.value, VHandle(handles[n], 0)], |Encode(w, t, v)|, n + 1) else Rejected
  {
    hide Encode, Attached, Receive, Kept, SkipsNoHandles, WellTyped, LittleEndian, Load, DecodeShape, Compat;
    var buf, attached := Encode(w, t, v), Attached(w, t, v);
    var handles := attached + [id];
    var n := |Kept(w, r, t, v)|;
    assert buf[0..|buf|] == buf && handles[0..|attached|] == attached;
    KeptFits(w, r, t, v);
    TakesKept(w, r, t, None, v, handles, 0);
    Reads(w, r, t, None, v, buf, 0, handles, 0);
    assert n < |attached| ==> handles[n] == attached[n] && attached[n] in attached;
    assert [t, param][1..] == [param] && [param][1..] == [];
    assert Decode(r, param, None, buf, |buf|, handles, n) == Done(VHandle(handles[n], 0), |buf|, n + 1);
    assert DecodeAll(r, [], None, buf, |buf|, handles, n + 1) == Done([], |buf|, n + 1);
    assert [VHandle(handles[n], 0)] + [] == [VHandle(handles[n], 0)];
    assert DecodeAll(r, [param], None, buf, |buf|, handles, n) == Done([VHandle(handles[n], 0)], |buf|, n + 1);
    var rc := Receive(w, r, t, None, v, handles, 0);
    if rc.Got? { assert [rc.value] + [VHandle(handles[n], 0)] == [rc.value, VHandle(handles[n], 0)]; }
  }

  // ----- a handle that goes astray -----

  const Plain := EnableIf(EnableIfClause(NoClause, []), EnableIfClause(NoClause, []))
  const HandleType := TypeSpec(Handle(AnyHandle, "", ""), false)

  function Ref(name: string): TypeSpec { TypeSpec(Named(StructRef, name, "", ""), false) }

  /** struct Inner { [MinVersion=1] handle h; }; struct Outer { Inner inner; handle h; }; */
  function Inner(): StructDecl {
    StructDecl("Inner", [StructField("h", HandleType, 1, VHandle(0, 0), Plain)], [], 0, "", Plain)
  }

  function Outer(): StructDecl {
    StructDecl("Outer", [StructField("inner", Ref("Inner"), 0, VStruct([]), Plain),
                         StructField("h", HandleType, 0, VHandle(0, 0), Plain)], [], 1, "", Plain)
  }

  function NewEnv(): Env { Env(map["Inner" := Inner(), "Outer" := Outer()], map[], map[], {}) }

  /** The same before Inner.h was added. */
  function OldEnv(): Env {
    Env(map["Inner" := Inner().(fields := []), "Outer" := Outer()], map[], map[], {})
  }

  lemma OldIsOlder()
    ensures IsOlder(OldEnv(), NewEnv(), k => 0)
  {
    assert UpTo(Inner().fields, 0) == [];
    assert UpTo(Outer().fields, 0) == Outer().fields;
  }

  lemma OldIsCompatible()
    ensures Compat(NewEnv(), OldEnv())
  {
    OldIsOlder();
    OlderIsCompatible(OldEnv(), NewEnv(), k => 0);
  }

  lemma WireForms()
    ensures WireFields(Inner().fields) == Inner().fields && Version(Inner().fields) == 1
    ensures WireFields(Outer().fields) == Outer().fields && Version(Outer().fields) == 0
    ensures ReadCount([], 1) == 0 && ReadCount(Outer().fields, 0) == 2
  {
    var fields := Outer().fields;
    assert fields[1..] == [fields[1]] && [fields[1]][1..] == [] && Inner().fields[1..] == [];
    assert WireFields([fields[1]]) == [fields[1]];
    assert ReadCount([fields[1]], 0) == 1;
  }

  lemma OneHandle(w: Env, r: Env, asOf: Option<nat>, id: nat, handles: seq<nat>, next: nat)
    requires Compat(w, r) && id < U32 && next < |handles|
    ensures AllTyped(w, [HandleType], [VHandle(id, 0)])
    ensures EncodeAll(w, [HandleType], [VHandle(id, 0)]) == [] && AttachedAll(w, [HandleType], [VHandle(id, 0)]) == [id]
    ensures ReceiveAll(w, r, [HandleType], asOf, [VHandle(id, 0)], handles, next) ==
            Got([VHandle(handles[next], 0)], next + 1)
  {
    hide Compat;
    var v := VHandle(id, 0);
    assert [HandleType][1..] == [] && [v][1..] == [];
    assert WellTyped(w, HandleType, v) && Encode(w, HandleType, v) == [] && Attached(w, HandleType, v) == [id];
    assert AllTyped(w, [], []) && ReceiveAll(w, r, [], asOf, [], handles, next + 1) == Got([], next + 1);
    assert Receive(w, r, HandleType, asOf, v, handles, next) == Got(VHandle(handles[next], 0), next + 1);
    assert [VHandle(handles[next], 0)] + [] == [VHandle(handles[next], 0)];
  }

  lemma InnerArrives()
    requires Compat(NewEnv(), OldEnv())
    ensures var v := VStruct([VHandle(7, 0)]);
            && WellTyped(NewEnv(), Ref("Inner"), v)
            && |Encode(NewEnv(), Ref("Inner"), v)| == 8 && Attached(NewEnv(), Ref("Inner"), v) == [7]
            && Receive(NewEnv(), OldEnv(), Ref("Inner"), Some(0), v, [7, 8], 0) == Got(VStruct([]), 0)
  {
    hide Compat, LittleEndian, WireFields, Version, ReadCount, ReceiveAll, AttachedAll, EncodeAll, AllTyped;
    WireForms();
    var w, r, v, s := NewEnv(), OldEnv(), VStruct([VHandle(7, 0)]), Ref("Inner").shape;
    OneHandle(w, r, None, 7, [7, 8], 0);
    var ts := FieldTypes(Inner().fields);
    assert ts == [HandleType] && ShapeKey(s) == "Inner";
    assert ShapeTyped(w, s, v) && |EncodeShape(w, s, v)| == 8 && AttachedShape(w, s, v) == [7];
    NoneArrive(w, r, Some(1));
    assert r.structs["Inner"].fields == [] && Initials([]) == [] && ts[..0] == [] && v.members[..0] == [];
    assert WireFields([]) == [] by { NoFields(); }
    var none: seq<StructField> := [];
    assert none[0..] == none && [] + Initials(none) == [];
    assert ReceiveShape(w, r, s, Some(0), v, [7, 8], 0) == Got(VStruct([]), 0);
  }

  lemma NoFields()
    ensures WireFields([]) == []
  {
  }

  lemma NoneArrive(w: Env, r: Env, asOf: Option<nat>)
    requires Compat(w, r)
    ensures AllTyped(w, [], []) && ReceiveAll(w, r, [], asOf, [], [7, 8], 0) == Got([], 0)
  {
    hide Compat;
  }

  lemma OuterMembers()
    requires Compat(NewEnv(), OldEnv())
    ensures var w, ts, vs := NewEnv(), [Ref("Inner"), HandleType], [VStruct([VHandle(7, 0)]), VHandle(8, 0)];
            && AllTyped(w, ts, vs) && |EncodeAll(w, ts, vs)| == 8 && AttachedAll(w, ts, vs) == [7, 8]
            && ReceiveAll(w, OldEnv(), ts, Some(0), vs, [7, 8], 0) == Got([VStruct([]), VHandle(7, 0)], 1)
  {
    hide Compat, WellTyped, Encode, Attached, Receive;
    InnerArrives();
    var w, ts, vs := NewEnv(), [Ref("Inner"), HandleType], [VStruct([VHandle(7, 0)]), VHandle(8, 0)];
    OneHandle(w, OldEnv(), Some(0), 8, [7, 8], 0);
    assert ts[1..] == [HandleType] && vs[1..] == [VHandle(8, 0)];
    assert [7] + [8] == [7, 8] && [VStruct([])] + [VHandle(7, 0)] == [VStruct([]), VHandle(7, 0)];
  }

  lemma OuterArrives()
    requires Compat(NewEnv(), OldEnv())
    ensures var v := VStruct([VStruct([VHandle(7, 0)]), VHandle(8, 0)]);
            && WellTyped(NewEnv(), Ref("Outer"), v)
            && |Encode(NewEnv(), Ref("Outer"), v)| == 16 && Attached(NewEnv(), Ref("Outer"), v) == [7, 8]
            && Receive(NewEnv(), OldEnv(), Ref("Outer"), None, v, [7, 8], 0) ==
               Got(VStruct([VStruct([]), VHandle(7, 0)]), 1)
  {
    hide Compat, LittleEndian, WireFields, Version, ReadCount, ReceiveAll, AttachedAll, EncodeAll, AllTyped;
    WireForms();
    OuterMembers();
    var w, r, s := NewEnv(), OldEnv(), Ref("Outer").shape;
    var v := VStruct([VStruct([VHandle(7, 0)]), VHandle(8, 0)]);
    var ts := FieldTypes(Outer().fields);
    assert ts == [Ref("Inner"), HandleType] && ShapeKey(s) == "Outer";
    assert ts[..2] == ts && v.members[..2] == v.members && Initials(Outer().fields[2..]) == [];
    assert [VStruct([]), VHandle(7, 0)] + Initials(Outer().fields[2..]) == [VStruct([]), VHandle(7, 0)];
    assert ShapeTyped(w, s, v) && |EncodeShape(w, s, v)| == 16 && AttachedShape(w, s, v) == [7, 8];
    assert ReceiveShape(w, r, s, None, v, [7, 8], 0) == Got(VStruct([VStruct([]), VHandle(7, 0)]), 1);
  }

  /** The old reader of an Outer takes the handle of the field it skipped for the one it knows. */
  lemma HandleGoesAstray()
    ensures var v := VStruct([VStruct([VHandle(7, 0)]), VHandle(8, 0)]);
            && WellTyped(NewEnv(), Ref("Outer"), v) && Attached(NewEnv(), Ref("Outer"), v) == [7, 8]
            && Decode(OldEnv(), Ref("Outer"), None, Encode(NewEnv(), Ref("Outer"), v), 0, [7, 8], 0) ==
               Done(VStruct([VStruct([]), VHandle(7, 0)]), |Encode(NewEnv(), Ref("Outer"), v)|, 1)
  {
    hide Decode, Encode, Receive, WellTyped, Attached, Compat;
    var w, r, v := NewEnv(), OldEnv(), VStruct([VStruct([VHandle(7, 0)]), VHandle(8, 0)]);
    OldIsCompatible();
    OuterArrives();
    var buf := Encode(w, Ref("Outer"), v);
    assert buf[0..|buf|] == buf;
    Reads(w, r, Ref("Outer"), None, v, buf, 0, [7, 8], 0);
  }
}
