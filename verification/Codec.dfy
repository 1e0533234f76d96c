/**
  The wire format as mathematics: what the generated WriteX appends, and what the generated
  ReadX makes of any byte string.
 */
module Codec {
  import opened Ast
  import opened Bytes
  import opened Schema
  import opened Wrappers

  function Width(k: ScalarKind): nat {
    match k
    case Bool | Int8 | Uint8 => 1
    case Int16 | Uint16 => 2
    case Int32 | Uint32 | Float => 4
    case Int64 | Uint64 | Double => 8
  }

  predicate Signed(k: ScalarKind) { k.Int8? || k.Int16? || k.Int32? || k.Int64? }

  predicate ScalarInRange(k: ScalarKind, n: int) {
    if k.Bool? then 0 <= n <= 1
    else if Signed(k) then -(Span(Width(k)) / 2) <= n < Span(Width(k)) / 2
    else 0 <= n < Span(Width(k))
  }

  /** The unsigned image of a scalar. */
  function ScalarImage(k: ScalarKind, n: int): (u: nat)
    requires ScalarInRange(k, n)
    ensures u < Span(Width(k))
  {
    if n < 0 then n + Span(Width(k)) else n
  }

  /** Reads a scalar back from its image; any nonzero byte is a true bool. */
  function ScalarOfImage(k: ScalarKind, u: nat): int {
    if k.Bool? then (if u == 0 then 0 else 1)
    else if Signed(k) && u >= Span(Width(k)) / 2 then u - Span(Width(k))
    else u
  }

  lemma ScalarImageInverse(k: ScalarKind, n: int)
    requires ScalarInRange(k, n)
    ensures ScalarOfImage(k, ScalarImage(k, n)) == n
  {
    Spans();
  }

  // ----- handles -----

  predicate InMessageHandle(h: HandleKind) {
    !h.PendingAssociatedRemote? && !h.PendingAssociatedReceiver?
  }

  predicate CarriesVersion(h: HandleKind) { h.PendingRemote? || h.PendingAssociatedRemote? }

  /** MOJO_HANDLE_INVALID, or kInvalidInterfaceId for an associated endpoint. */
  function InvalidId(h: HandleKind): nat {
    if InMessageHandle(h) then 0 else U32 - 1
  }

  function InvalidHandle(h: HandleKind): Value { VHandle(InvalidId(h), 0) }

  // ----- values of a type -----

  /** n copies of a type: the element types of an array. */
  function Repeat(t: TypeSpec, n: nat): (r: seq<TypeSpec>)
    ensures |r| == n
  {
    seq(n, _ => t)
  }

  /** key, value, key, value, ...: the types of n map entries. */
  function Alternate(key: TypeSpec, value: TypeSpec, n: nat): (r: seq<TypeSpec>)
    ensures |r| == 2 * n
  {
    seq(2 * n, i => if i % 2 == 0 then key else value)
  }

  predicate HasKey(entries: seq<Value>, key: Value) {
    exists i :: 0 <= i < |entries| && i % 2 == 0 && entries[i] == key
  }

  predicate DistinctKeys(entries: seq<Value>) {
    forall i, j :: 0 <= i < j < |entries| && i % 2 == 0 && j % 2 == 0 ==> entries[i] != entries[j]
  }

  predicate HandleTyped(h: HandleKind, v: Value) {
    && v.VHandle?
    && v.id < U32 && v.version < U32
    && (!CarriesVersion(h) ==> v.version == 0)
  }

  /** v is a C++ value of type t, and every count that is written fits its 32 bits. */
  predicate WellTyped(env: Env, t: TypeSpec, v: Value)
    decreases v, 1
  {
    if t.shape.Handle? then HandleTyped(t.shape.handle, v)
    else (t.nullable && v == VNone) || ShapeTyped(env, t.shape, v)
  }

  predicate ShapeTyped(env: Env, s: Shape, v: Value)
    decreases v, 0
  {
    match s
    case Scalar(k) => v.VScalar? && ScalarInRange(k, v.n)
    case String => v.VString? && |v.chars| < U32
    case Array(element, fixedSize) =>
      && v.VArray? && (if fixedSize > 0 then |v.elements| == fixedSize else |v.elements| < U32)
      && AllTyped(env, Repeat(element, |v.elements|), v.elements)
    case Map(key, value) =>
      && v.VMap? && |v.entries| % 2 == 0 && |v.entries| / 2 < U32 && DistinctKeys(v.entries)
      && AllTyped(env, Alternate(key, value, |v.entries| / 2), v.entries)
    case Handle(h, _, _) => false
    case Named(kind, _, _, _) =>
      match kind
      case EnumRef => v.VEnum? && ScalarInRange(Int32, v.raw)
      case StructRef =>
        && ShapeKey(s) in env.structs && v.VStruct?
        && AllTyped(env, FieldTypes(WireFields(env.structs[ShapeKey(s)].fields)), v.members)
      case UnionRef =>
        && ShapeKey(s) in env.unions
        && var u := env.unions[ShapeKey(s)];
        if v.VUnion? then
          var f := FieldByTag(u.fields, v.tag);
          f.Some? && WellTyped(env, f.value.fieldType, v.payload)
        else v.VUnknown? && u.isExtensible
  }

  function AllTyped(env: Env, ts: seq<TypeSpec>, vs: seq<Value>): (b: bool)
    ensures b ==> |ts| == |vs|
    decreases vs, 2
  {
    && |ts| == |vs|
    && (vs == [] || (WellTyped(env, ts[0], vs[0]) && AllTyped(env, ts[1..], vs[1..])))
  }

  // ----- writing -----

  /** The bytes WriteX appends, with every frame's size known in advance. */
  function Encode(env: Env, t: TypeSpec, v: Value): seq<byte>
    requires WellTyped(env, t, v)
    decreases v, 1
  {
    if t.shape.Handle? then
      var here := v.id != InvalidId(t.shape.handle);
      if !t.nullable then EncodeHandle(t.shape.handle, v)
      else if here then [1] + EncodeHandle(t.shape.handle, v)
      else [0]
    else if !t.nullable then EncodeShape(env, t.shape, v)
    else if v == VNone then [0]
    else [1] + EncodeShape(env, t.shape, v)
  }

  function EncodeHandle(h: HandleKind, v: Value): seq<byte>
    requires v.VHandle?
  {
    (if InMessageHandle(h) then [] else LittleEndian(4, v.id)) +
    (if CarriesVersion(h) then LittleEndian(4, v.version) else [])
  }

  function EncodeShape(env: Env, s: Shape, v: Value): seq<byte>
    requires ShapeTyped(env, s, v)
    decreases v, 0
  {
    match s
    case Scalar(k) => LittleEndian(Width(k), ScalarImage(k, v.n))
    case String => LittleEndian(4, |v.chars|) + v.chars
    case Array(element, fixedSize) =>
      (if fixedSize == 0 then LittleEndian(4, |v.elements|) else []) +
      EncodeAll(env, Repeat(element, |v.elements|), v.elements)
    case Map(key, value) =>
      LittleEndian(4, |v.entries| / 2) +
      EncodeAll(env, Alternate(key, value, |v.entries| / 2), v.entries)
    case Named(kind, _, _, _) =>
      match kind
      case EnumRef => LittleEndian(4, ScalarImage(Int32, v.raw))
      case StructRef =>
        var fields := env.structs[ShapeKey(s)].fields;
        var body := EncodeAll(env, FieldTypes(WireFields(fields)), v.members);
        LittleEndian(4, 8 + |body|) + LittleEndian(4, Version(fields)) + body
      case UnionRef =>
        if v.VUnknown? then LittleEndian(4, 8) + LittleEndian(4, U32 - 1)
        else
          var f := FieldByTag(env.unions[ShapeKey(s)].fields, v.tag).value;
          var body := Encode(env, f.fieldType, v.payload);
          LittleEndian(4, 8 + |body|) + LittleEndian(4, v.tag) + body
  }

  function EncodeAll(env: Env, ts: seq<TypeSpec>, vs: seq<Value>): seq<byte>
    requires AllTyped(env, ts, vs)
    decreases vs, 2
  {
    if vs == [] then [] else Encode(env, ts[0], vs[0]) + EncodeAll(env, ts[1..], vs[1..])
  }

  /** The handles WriteX attaches to the message, in order. */
  function Attached(env: Env, t: TypeSpec, v: Value): seq<nat>
    requires WellTyped(env, t, v)
    decreases v, 1
  {
    if t.shape.Handle? then
      var h := t.shape.handle;
      if InMessageHandle(h) && (t.nullable ==> v.id != InvalidId(h)) then [v.id] else []
    else if t.nullable && v == VNone then []
    else AttachedShape(env, t.shape, v)
  }

  function AttachedShape(env: Env, s: Shape, v: Value): seq<nat>
    requires ShapeTyped(env, s, v)
    decreases v, 0
  {
    match s
    case Array(element, _) => AttachedAll(env, Repeat(element, |v.elements|), v.elements)
    case Map(key, value) =>
      AttachedAll(env, Alternate(key, value, |v.entries| / 2), v.entries)
    case Named(kind, _, _, _) =>
      if kind.StructRef? then
        AttachedAll(env, FieldTypes(WireFields(env.structs[ShapeKey(s)].fields)), v.members)
      else if kind.UnionRef? && v.VUnion? then
        var f := FieldByTag(env.unions[ShapeKey(s)].fields, v.tag).value;
        Attached(env, f.fieldType, v.payload)
      else []
    case _ => []
  }

  function AttachedAll(env: Env, ts: seq<TypeSpec>, vs: seq<Value>): seq<nat>
    requires AllTyped(env, ts, vs)
    decreases vs, 2
  {
    if vs == [] then [] else Attached(env, ts[0], vs[0]) + AttachedAll(env, ts[1..], vs[1..])
  }

  // ----- reading -----

  /**
    Where a ReadX call ends: with a value, the new `*offset` and the new handle index; with
    `return false`; or indexing past the handle vector, which the generated code does not check.
   */
  datatype Outcome<+T> =
    | Done(value: T, offset: nat, next: nat)
    | Rejected
    | NoHandle

  function Max(a: nat, b: nat): nat { if a < b then b else a }

  /** Nesting depth of a type expression; references to declarations do not nest. */
  function Depth(t: TypeSpec): nat {
    match t.shape
    case Array(element, _) => 1 + Depth(element)
    case Map(key, value) => 1 + Max(Depth(key), Depth(value))
    case _ => 0
  }

  function DepthAll(ts: seq<TypeSpec>): nat {
    if ts == [] then 0 else Max(Depth(ts[0]), DepthAll(ts[1..]))
  }

  lemma {:induction false} DepthBound(ts: seq<TypeSpec>, bound: nat)
    requires forall i :: 0 <= i < |ts| ==> Depth(ts[i]) <= bound
    ensures DepthAll(ts) <= bound
  {
    if ts != [] { DepthBound(ts[1..], bound); }
  }

  /** emplace(): an entry whose key is already there is dropped. */
  function Emplace(entries: seq<Value>, key: Value, value: Value): seq<Value> {
    if HasKey(entries, key) then entries else entries + [key, value]
  }

  function EmplaceAll(entries: seq<Value>, more: seq<Value>): seq<Value>
    requires |more| % 2 == 0
    decreases |more|
  {
    if more == [] then entries
    else EmplaceAll(Emplace(entries, more[0], more[1]), more[2..])
  }

  /** ReadX for type t at `off`; `asOf` is the version the enclosing struct was written at. */
  function Decode(env: Env, t: TypeSpec, asOf: Option<nat>, buf: seq<byte>, off: nat,
                  handles: seq<nat>, next: nat): (r: Outcome<Value>)
    requires off <= |buf|
    ensures r.Done? ==> off <= r.offset <= |buf| && next <= r.next
    decreases |buf| - off, Depth(t), 2
  {
    if !t.nullable then
      if t.shape.Handle? then DecodeHandle(t.shape.handle, buf, off, handles, next)
      else DecodeShape(env, t.shape, asOf, buf, off, handles, next)
    else
      match Load(1, buf, off)
      case None => Rejected
      case Some(has) =>
        if t.shape.Handle? then
          if has != 0 then DecodeHandle(t.shape.handle, buf, off + 1, handles, next)
          else Done(InvalidHandle(t.shape.handle), off + 1, next)
        else if has != 0 then DecodeShape(env, t.shape, asOf, buf, off + 1, handles, next)
        else Done(VNone, off + 1, next)
  }

  function DecodeHandle(h: HandleKind, buf: seq<byte>, off: nat, handles: seq<nat>, next: nat)
    : (r: Outcome<Value>)
    requires off <= |buf|
    ensures r.Done? ==> off <= r.offset <= |buf| && next <= r.next
  {
    if InMessageHandle(h) then
      match (if CarriesVersion(h) then Load(4, buf, off) else Some(0))
      case None => Rejected
      case Some(version) =>
        if next >= |handles| then NoHandle
        else Done(VHandle(handles[next], version), if CarriesVersion(h) then off + 4 else off, next + 1)
    else
      match Load(4, buf, off)
      case None => Rejected
      case Some(id) =>
        if !CarriesVersion(h) then Done(VHandle(id, 0), off + 4, next)
        else
          match Load(4, buf, off + 4)
          case None => Rejected
          case Some(version) => Done(VHandle(id, version), off + 8, next)
  }

  function DecodeShape(env: Env, s: Shape, asOf: Option<nat>, buf: seq<byte>, off: nat,
                       handles: seq<nat>, next: nat): (r: Outcome<Value>)
    requires off <= |buf|
    ensures r.Done? ==> off <= r.offset <= |buf| && next <= r.next
    decreases |buf| - off, Depth(TypeSpec(s, false)), 1
  {
    match s
    case Scalar(k) =>
      (match Load(Width(k), buf, off)
       case None => Rejected
       case Some(u) => Done(VScalar(ScalarOfImage(k, u)), off + Width(k), next))
    case String =>
      (match Load(4, buf, off)
       case None => Rejected
       case Some(n) =>
         if off + 4 + n > |buf| then Rejected
         else Done(VString(buf[off + 4..off + 4 + n]), off + 4 + n, next))
    case Array(element, fixedSize) =>
      if fixedSize > 0 then
        DepthBound(Repeat(element, fixedSize), Depth(element));
        DecodeArray(DecodeAll(env, Repeat(element, fixedSize), asOf, buf, off, handles, next))
      else
        (match Load(4, buf, off)
         case None => Rejected
         case Some(n) =>
           DecodeArray(DecodeAll(env, Repeat(element, n), asOf, buf, off + 4, handles, next)))
    case Map(key, value) =>
      (match Load(4, buf, off)
       case None => Rejected
       case Some(n) =>
         match DecodeAll(env, Alternate(key, value, n), asOf, buf, off + 4, handles, next)
         case Done(vs, o, h) => Done(VMap(EmplaceAll([], vs)), o, h)
         case Rejected => Rejected
         case NoHandle => NoHandle)
    case Handle(h, _, _) => Rejected
    case Named(kind, _, _, _) =>
      match kind
      case EnumRef =>
        (match Load(4, buf, off)
         case None => Rejected
         case Some(u) =>
           var raw := ScalarOfImage(Int32, u);
           if EnumReadable(env, s, raw, asOf) then Done(VEnum(raw), off + 4, next) else Rejected)
      case StructRef =>
        if ShapeKey(s) !in env.structs then Rejected
        else DecodeStruct(env, env.structs[ShapeKey(s)], buf, off, handles, next)
      case UnionRef =>
        if ShapeKey(s) !in env.unions then Rejected
        else DecodeUnion(env, env.unions[ShapeKey(s)], buf, off, handles, next)
  }

  function DecodeArray(r: Outcome<seq<Value>>): Outcome<Value> {
    match r
    case Done(vs, o, h) => Done(VArray(vs), o, h)
    case Rejected => Rejected
    case NoHandle => NoHandle
  }

  /** Header, then the fields its version says are there, then a jump to the recorded end. */
  function DecodeStruct(env: Env, s: StructDecl, buf: seq<byte>, off: nat, handles: seq<nat>, next: nat)
    : (r: Outcome<Value>)
    requires off <= |buf|
    ensures r.Done? ==> off + 8 <= r.offset <= |buf| && next <= r.next
    decreases |buf| - off, 0, 0
  {
    match (Load(4, buf, off), Load(4, buf, off + 4))
    case (Some(size), Some(version)) =>
      if size < 8 || off + size > |buf| then Rejected
      else
        var wire := WireFields(s.fields);
        var n := ReadCount(wire, version);
        (match DecodeAll(env, FieldTypes(wire[..n]), Some(version), buf, off + 8, handles, next)
         case Done(vs, _, h) => Done(VStruct(vs + Initials(wire[n..])), off + size, h)
         case Rejected => Rejected
         case NoHandle => NoHandle)
    case _ => Rejected
  }

  /** What an extensible union becomes when the tag on the wire is not one of its own. */
  function UnknownTag(u: UnionDecl): Value {
    match DefaultField(u.fields)
    case Some(f) => VUnion(f.tag, f.initial)
    case None => VUnknown
  }

  function DecodeUnion(env: Env, u: UnionDecl, buf: seq<byte>, off: nat, handles: seq<nat>, next: nat)
    : (r: Outcome<Value>)
    requires off <= |buf|
    ensures r.Done? ==> off + 4 <= r.offset <= |buf| && next <= r.next
    decreases |buf| - off, 0, 0
  {
    match Load(4, buf, off)
    case None => Rejected
    case Some(size) =>
      if size < 4 || off + size > |buf| then Rejected
      else
        match Load(4, buf, off + 4)
        case None => Rejected
        case Some(tag) =>
          match FieldByTag(u.fields, tag)
          case None =>
            if u.isExtensible then Done(UnknownTag(u), off + size, next) else Rejected
          case Some(f) =>
            match Decode(env, f.fieldType, None, buf, off + 8, handles, next)
            case Done(v, _, h) => Done(VUnion(tag, v), off + size, h)
            case Rejected => Rejected
            case NoHandle => NoHandle
  }

  function DecodeAll(env: Env, ts: seq<TypeSpec>, asOf: Option<nat>, buf: seq<byte>, off: nat,
                     handles: seq<nat>, next: nat): (r: Outcome<seq<Value>>)
    requires off <= |buf|
    ensures r.Done? ==> off <= r.offset <= |buf| && next <= r.next && |r.value| == |ts|
    decreases |buf| - off, DepthAll(ts), 3 + |ts|
  {
    if ts == [] then Done([], off, next)
    else
      match Decode(env, ts[0], asOf, buf, off, handles, next)
      case Rejected => Rejected
      case NoHandle => NoHandle
      case Done(v, o, h) =>
        match DecodeAll(env, ts[1..], asOf, buf, o, handles, h)
        case Rejected => Rejected
        case NoHandle => NoHandle
        case Done(vs, o', h') => Done([v] + vs, o', h')
  }
}
