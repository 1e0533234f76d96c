/**
  The generated ReadX as it runs: a cursor over the payload and a cursor over the handles move
  forward as values are read.
 */
module WireReader {
  import opened Ast
  import opened Bytes
  import opened Schema
  import opened WireOrder
  import opened Codec
  import opened Wrappers

  /** The `size_t* offset` and `size_t* wvc_handle_idx` every reader is passed. */
  class Cursor {
    var offset: nat
    var next: nat

    constructor ()
      ensures offset == 0 && next == 0
    {
      offset, next := 0, 0;
    }
  }

  /** `return true`, `return false`, or an index past the handle vector. */
  datatype Status = Success | Failure | PastHandles

  /** The call came out as the outcome says; after a failure the cursor is anywhere in the payload. */
  ghost predicate Agrees<T>(c: Cursor, buf: seq<byte>, status: Status, v: T, r: Outcome<T>)
    reads c
  {
    && c.offset <= |buf|
    && match r
       case Done(value, offset, next) =>
         status == Success && v == value && c.offset == offset && c.next == next
       case Rejected => status == Failure
       case NoHandle => status == PastHandles
  }

  /** ReadScalar: false, with the offset left where it was, when the payload is too short. */
  method ReadScalar(buf: seq<byte>, c: Cursor, width: nat) returns (ok: bool, n: nat)
    requires c.offset <= |buf|
    modifies c`offset
    ensures ok <==> Load(width, buf, old(c.offset)).Some?
    ensures ok ==> n == Load(width, buf, old(c.offset)).value && c.offset == old(c.offset) + width <= |buf|
    ensures !ok ==> c.offset == old(c.offset)
  {
    if c.offset + width > |buf| {
      return false, 0;
    }
    n := FromLittleEndian(buf[c.offset..c.offset + width]);
    c.offset := c.offset + width;
    ok := true;
  }

  method ReadHandle(h: HandleKind, buf: seq<byte>, c: Cursor, handles: seq<nat>) returns (status: Status, v: Value)
    requires c.offset <= |buf|
    modifies c
    ensures Agrees(c, buf, status, v, DecodeHandle(h, buf, old(c.offset), handles, old(c.next)))
  {
    hide Load;
    v := VNone;
    var ok, id, version := true, 0, 0;
    if !InMessageHandle(h) {
      ok, id := ReadScalar(buf, c, 4);
      if !ok { return Failure, v; }
    }
    if CarriesVersion(h) {
      ok, version := ReadScalar(buf, c, 4);
      if !ok { return Failure, v; }
    }
    if InMessageHandle(h) {
      if c.next >= |handles| { return PastHandles, v; }
      id := handles[c.next];
      c.next := c.next + 1;
    }
    return Success, VHandle(id, version);
  }

  /** EmitReadInto's code for one value. */
  method ReadValue(env: Env, t: TypeSpec, asOf: Option<nat>, buf: seq<byte>, c: Cursor, handles: seq<nat>)
    returns (status: Status, v: Value)
    requires c.offset <= |buf|
    modifies c
    ensures Agrees(c, buf, status, v, Decode(env, t, asOf, buf, old(c.offset), handles, old(c.next)))
    decreases |buf| - c.offset, Depth(t), 2
  {
    hide DecodeShape, DecodeHandle, Load;
    if t.nullable {
      var ok, has := ReadScalar(buf, c, 1);
      if !ok { return Failure, VNone; }
      if has == 0 {
        return Success, if t.shape.Handle? then InvalidHandle(t.shape.handle) else VNone;
      }
    }
    if t.shape.Handle? {
      status, v := ReadHandle(t.shape.handle, buf, c, handles);
    } else {
      status, v := ReadShape(env, t.shape, asOf, buf, c, handles);
    }
  }

  method ReadShape(env: Env, s: Shape, asOf: Option<nat>, buf: seq<byte>, c: Cursor, handles: seq<nat>)
    returns (status: Status, v: Value)
    requires c.offset <= |buf|
    modifies c
    ensures Agrees(c, buf, status, v, DecodeShape(env, s, asOf, buf, old(c.offset), handles, old(c.next)))
    decreases |buf| - c.offset, Depth(TypeSpec(s, false)), 1
  {
    hide DecodeStruct, DecodeUnion, DecodeAll, Decode, Load, EmplaceAll, ScalarOfImage, EnumReadable, Width;
    v := VNone;
    match s {
      case Scalar(k) =>
        var ok, u := ReadScalar(buf, c, Width(k));
        if !ok { return Failure, v; }
        return Success, VScalar(ScalarOfImage(k, u));
      case String =>
        var ok, n := ReadScalar(buf, c, 4);
        if !ok || c.offset + n > |buf| { return Failure, v; }
        c.offset := c.offset + n;
        return Success, VString(buf[c.offset - n..c.offset]);
      case Array(element, fixedSize) =>
        var n := fixedSize;
        if fixedSize == 0 {
          var ok;
          ok, n := ReadScalar(buf, c, 4);
          if !ok { return Failure, v; }
        }
        var elements;
        DepthBound(Repeat(element, n), Depth(element));
        status, elements := ReadElements(env, element, n, asOf, buf, c, handles);
        return status, VArray(elements);
      case Map(key, value) =>
        var ok, n := ReadScalar(buf, c, 4);
        if !ok { return Failure, v; }
        status, v := ReadEntries(env, key, value, n, asOf, buf, c, handles);
      case Handle(_, _, _) => return Failure, v;
      case Named(kind, _, _, _) =>
        match kind {
          case EnumRef =>
            var ok, u := ReadScalar(buf, c, 4);
            if !ok || !EnumReadable(env, s, ScalarOfImage(Int32, u), asOf) { return Failure, v; }
            return Success, VEnum(ScalarOfImage(Int32, u));
          case StructRef =>
            if ShapeKey(s) !in env.structs { return Failure, v; }
            status, v := ReadStruct(env, env.structs[ShapeKey(s)], buf, c, handles);
          case UnionRef =>
            if ShapeKey(s) !in env.unions { return Failure, v; }
            status, v := ReadUnion(env, env.unions[ShapeKey(s)], buf, c, handles);
        }
    }
  }

  /** The values read so far in front of what is still to be read. */
  function Prepend(vs: seq<Value>, r: Outcome<seq<Value>>): Outcome<seq<Value>> {
    match r
    case Done(rest, o, h) => Done(vs + rest, o, h)
    case Rejected => Rejected
    case NoHandle => NoHandle
  }

  /** One more value off the front of a list still to be read. */
  lemma DecodeStep(env: Env, ts: seq<TypeSpec>, asOf: Option<nat>, buf: seq<byte>, off: nat,
                   handles: seq<nat>, next: nat, vs: seq<Value>)
    requires off <= |buf| && ts != []
    ensures Prepend(vs, DecodeAll(env, ts, asOf, buf, off, handles, next)) ==
            match Decode(env, ts[0], asOf, buf, off, handles, next)
            case Done(v, o, h) => Prepend(vs + [v], DecodeAll(env, ts[1..], asOf, buf, o, handles, h))
            case Rejected => Rejected
            case NoHandle => NoHandle
  {
    hide Decode;
    match Decode(env, ts[0], asOf, buf, off, handles, next) {
      case Done(v, o, h) =>
        var rest := DecodeAll(env, ts[1..], asOf, buf, o, handles, h);
        if rest.Done? { assert vs + ([v] + rest.value) == vs + [v] + rest.value; }
      case _ =>
    }
  }

  /** resize(n), then one read per element. */
  method ReadElements(env: Env, element: TypeSpec, n: nat, asOf: Option<nat>, buf: seq<byte>, c: Cursor,
                      handles: seq<nat>)
    returns (status: Status, vs: seq<Value>)
    requires c.offset <= |buf|
    modifies c
    ensures Agrees(c, buf, status, vs,
                   DecodeAll(env, Repeat(element, n), asOf, buf, old(c.offset), handles, old(c.next)))
    decreases |buf| - c.offset, Depth(element), 3 + n
  {
    hide Decode, DecodeAll;
    vs := [];
    var i := 0;
    ghost var whole := DecodeAll(env, Repeat(element, n), asOf, buf, c.offset, handles, c.next);
    assert Repeat(element, n)[0..] == Repeat(element, n);
    DecodeNothing(env, asOf, buf, c.offset, handles, c.next, whole);
    while i < n
      invariant 0 <= i <= n && old(c.offset) <= c.offset <= |buf|
      invariant whole == Prepend(vs, DecodeAll(env, Repeat(element, n)[i..], asOf, buf, c.offset, handles, c.next))
    {
      assert Repeat(element, n)[i..][1..] == Repeat(element, n)[i + 1..];
      DecodeStep(env, Repeat(element, n)[i..], asOf, buf, c.offset, handles, c.next, vs);
      var v;
      status, v := ReadValue(env, element, asOf, buf, c, handles);
      if status != Success { return status, []; }
      vs := vs + [v];
      i := i + 1;
    }
    DecodeNothing(env, asOf, buf, c.offset, handles, c.next, whole);
    assert Repeat(element, n)[i..] == [] && vs + [] == vs;
    status := Success;
  }

  lemma DecodeNothing(env: Env, asOf: Option<nat>, buf: seq<byte>, off: nat, handles: seq<nat>, next: nat,
                      r: Outcome<seq<Value>>)
    requires off <= |buf|
    ensures DecodeAll(env, [], asOf, buf, off, handles, next) == Done([], off, next)
    ensures Prepend([], r) == r
  {
    if r.Done? { assert [] + r.value == r.value; }
  }

  /** clear(), then one emplace per entry. */
  method ReadEntries(env: Env, key: TypeSpec, value: TypeSpec, n: nat, asOf: Option<nat>, buf: seq<byte>, c: Cursor,
                     handles: seq<nat>)
    returns (status: Status, v: Value)
    requires c.offset <= |buf|
    modifies c
    ensures match DecodeAll(env, Alternate(key, value, n), asOf, buf, old(c.offset), handles, old(c.next))
            case Done(vs, o, h) => Agrees(c, buf, status, v, Done(VMap(EmplaceAll([], vs)), o, h))
            case Rejected => Agrees(c, buf, status, v, Rejected)
            case NoHandle => Agrees(c, buf, status, v, NoHandle)
    decreases |buf| - c.offset, Max(Depth(key), Depth(value)), 3 + n
  {
    hide Decode, DecodeAll, EmplaceAll;
    var entries := [];
    ghost var ts, vs := Alternate(key, value, n), [];
    ghost var whole := DecodeAll(env, ts, asOf, buf, c.offset, handles, c.next);
    assert ts[0..] == ts;
    DecodeNothing(env, asOf, buf, c.offset, handles, c.next, whole);
    EmplaceNothing([]);
    var i := 0;
    while i < n
      invariant 0 <= i <= n && old(c.offset) <= c.offset <= |buf| && |vs| == 2 * i
      invariant whole == Prepend(vs, DecodeAll(env, ts[2 * i..], asOf, buf, c.offset, handles, c.next))
      invariant entries == EmplaceAll([], vs)
    {
      assert ts[2 * i..][1..] == ts[2 * i + 1..] && ts[2 * i + 1..][1..] == ts[2 * (i + 1)..];
      DecodeStep(env, ts[2 * i..], asOf, buf, c.offset, handles, c.next, vs);
      var k, x;
      status, k := ReadValue(env, key, asOf, buf, c, handles);
      if status != Success { return status, VNone; }
      DecodeStep(env, ts[2 * i + 1..], asOf, buf, c.offset, handles, c.next, vs + [k]);
      status, x := ReadValue(env, value, asOf, buf, c, handles);
      if status != Success { return status, VNone; }
      EmplaceOneMore([], vs, k, x);
      assert vs + [k] + [x] == vs + [k, x];
      entries := Emplace(entries, k, x);
      vs := vs + [k, x];
      i := i + 1;
    }
    DecodeNothing(env, asOf, buf, c.offset, handles, c.next, whole);
    assert ts[2 * i..] == [] && vs + [] == vs;
    return Success, VMap(entries);
  }

  lemma EmplaceNothing(entries: seq<Value>)
    ensures EmplaceAll(entries, []) == entries
  {
  }

  lemma {:induction false} EmplaceOneMore(entries: seq<Value>, more: seq<Value>, key: Value, value: Value)
    requires |more| % 2 == 0
    ensures EmplaceAll(entries, more + [key, value]) == Emplace(EmplaceAll(entries, more), key, value)
    decreases |more|
  {
    if more == [] {
      assert more + [key, value] == [key, value] && [key, value][2..] == [];
    } else {
      assert (more + [key, value])[2..] == more[2..] + [key, value];
      EmplaceOneMore(Emplace(entries, more[0], more[1]), more[2..], key, value);
    }
  }

  /** EmitStructIO's Read: every field behind its own version check, then the jump. */
  method ReadStruct(env: Env, s: StructDecl, buf: seq<byte>, c: Cursor, handles: seq<nat>)
    returns (status: Status, v: Value)
    requires c.offset <= |buf|
    modifies c
    ensures Agrees(c, buf, status, v, DecodeStruct(env, s, buf, old(c.offset), handles, old(c.next)))
    decreases |buf| - c.offset, 0, 0
  {
    hide Load, DecodeAll;
    v := VNone;
    var ok, size, version;
    ok, size := ReadScalar(buf, c, 4);
    if !ok { return Failure, v; }
    ok, version := ReadScalar(buf, c, 4);
    if !ok { return Failure, v; }
    if size < 8 { return Failure, v; }
    var end := c.offset - 8 + size;
    if end > |buf| { return Failure, v; }
    var members;
    status, members := ReadFields(env, WireFields(s.fields), version, buf, c, handles) by {
      WireMembers(s.fields);
    }
    if status != Success { return status, v; }
    c.offset := end;
    return Success, VStruct(members);
  }

  method ReadFields(env: Env, wire: seq<StructField>, version: nat, buf: seq<byte>, c: Cursor, handles: seq<nat>)
    returns (status: Status, members: seq<Value>)
    requires c.offset <= |buf| && SortedByVersion(wire)
    modifies c
    ensures var n := ReadCount(wire, version);
            match DecodeAll(env, FieldTypes(wire[..n]), Some(version), buf, old(c.offset), handles, old(c.next))
            case Done(vs, o, h) => Agrees(c, buf, status, members, Done(vs + Initials(wire[n..]), o, h))
            case Rejected => Agrees(c, buf, status, members, Rejected)
            case NoHandle => Agrees(c, buf, status, members, NoHandle)
    decreases |buf| - c.offset, DepthAll(FieldTypes(wire)), 3 + |wire|
  {
    hide Decode, DecodeAll, ReadCount, Depth, DepthAll, FieldTypes, Initials, SortedByVersion;
    members := [];
    ghost var n, vs := ReadCount(wire, version), [];
    ghost var ts := FieldTypes(wire[..n]);
    ghost var whole := DecodeAll(env, ts, Some(version), buf, c.offset, handles, c.next);
    ReadCountSplits(wire, version);
    assert ts[0..] == ts;
    DecodeNothing(env, Some(version), buf, c.offset, handles, c.next, whole);
    var i := 0;
    while i < |wire|
      invariant 0 <= i <= |wire| && old(c.offset) <= c.offset <= |buf|
      invariant whole == Prepend(vs, DecodeAll(env, ts[if i < n then i else n..], Some(version), buf, c.offset, handles, c.next))
      invariant members == vs + if i <= n then [] else Initials(wire[n..i])
    {
      if version >= wire[i].minVersion {
        NextPresent(wire, n, i);
        DecodeStep(env, ts[i..], Some(version), buf, c.offset, handles, c.next, vs);
        var x;
        FieldDepth(wire, i);
        status, x := ReadValue(env, wire[i].fieldType, Some(version), buf, c, handles);
        if status != Success { return status, []; }
        members := members + [x];
        vs := vs + [x];
      } else {
        NextInitial(wire, n, i);
        members := members + [wire[i].initial];
      }
      i := i + 1;
    }
    DecodeNothing(env, Some(version), buf, c.offset, handles, c.next, whole);
    LastField(wire, n);
    assert vs + [] == vs;
    status := Success;
  }

  lemma NextPresent(wire: seq<StructField>, n: nat, i: nat)
    requires i < n <= |wire|
    ensures var ts := FieldTypes(wire[..n]); ts[i..][1..] == ts[i + 1..] && ts[i..][0] == wire[i].fieldType
  {
  }

  lemma LastField(wire: seq<StructField>, n: nat)
    requires n <= |wire|
    ensures wire[n..|wire|] == wire[n..] && FieldTypes(wire[..n])[n..] == []
    ensures n == |wire| ==> Initials(wire[n..]) == []
  {
  }

  /** One more field past the last one read. */
  lemma NextInitial(wire: seq<StructField>, n: nat, i: nat)
    requires n <= i < |wire|
    ensures Initials(wire[n..i + 1]) == Initials(wire[n..i]) + [wire[i].initial]
    ensures i == n ==> Initials(wire[n..i]) == []
  {
  }

  lemma FieldDepth(wire: seq<StructField>, i: nat)
    requires i < |wire|
    ensures Depth(wire[i].fieldType) <= DepthAll(FieldTypes(wire))
  {
    DepthOfMember(FieldTypes(wire), i);
  }

  lemma {:induction false} DepthOfMember(ts: seq<TypeSpec>, i: nat)
    requires i < |ts|
    ensures Depth(ts[i]) <= DepthAll(ts)
  {
    if i > 0 { DepthOfMember(ts[1..], i - 1); }
  }

  /** EmitUnionIO's Read: size, tag, the active field if the tag is known, then the jump. */
  method ReadUnion(env: Env, u: UnionDecl, buf: seq<byte>, c: Cursor, handles: seq<nat>)
    returns (status: Status, v: Value)
    requires c.offset <= |buf|
    modifies c
    ensures Agrees(c, buf, status, v, DecodeUnion(env, u, buf, old(c.offset), handles, old(c.next)))
    decreases |buf| - c.offset, 0, 0
  {
    hide Load, Decode;
    v := VNone;
    var ok, size, tag;
    ok, size := ReadScalar(buf, c, 4);
    if !ok || size < 4 { return Failure, v; }
    var end := c.offset - 4 + size;
    if end > |buf| { return Failure, v; }
    ok, tag := ReadScalar(buf, c, 4);
    if !ok { return Failure, v; }
    var f := FieldByTag(u.fields, tag);
    if f.Some? {
      status, v := ReadValue(env, f.value.fieldType, None, buf, c, handles);
      if status != Success { return status, VNone; }
      v := VUnion(tag, v);
    } else if u.isExtensible {
      v := UnknownTag(u);
    } else {
      return Failure, v;
    }
    c.offset := end;
    status := Success;
  }
}
