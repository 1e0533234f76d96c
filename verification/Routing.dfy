/**
  Which handles a reader of another version takes, and which parts get their own: the handle
  index moves over the parts that are read, and stands still over the parts that are jumped.
 */
module Routing {
  import opened Ast
  import opened Schema
  import opened Codec
  import opened Evolution
  import opened RoundTrip
  import opened Wrappers

  /** The handles attached to the parts the reader does not jump over. */
  ghost function Kept(w: Env, r: Env, t: TypeSpec, v: Value): seq<nat>
    requires Compat(w, r) && WellTyped(w, t, v)
    decreases v, 1
  {
    if t.shape.Handle? then Attached(w, t, v)
    else if t.nullable && v == VNone then []
    else KeptShape(w, r, t.shape, v)
  }

  ghost function KeptShape(w: Env, r: Env, s: Shape, v: Value): seq<nat>
    requires Compat(w, r) && ShapeTyped(w, s, v)
    decreases v, 0
  {
    match s
    case Array(element, _) => KeptAll(w, r, Repeat(element, |v.elements|), v.elements)
    case Map(key, value) => KeptAll(w, r, Alternate(key, value, |v.entries| / 2), v.entries)
    case Named(kind, _, _, _) =>
      (match kind
       case EnumRef => []
       case StructRef =>
         if ShapeKey(s) !in r.structs then []
         else
           var fields := w.structs[ShapeKey(s)].fields;
           var ts := FieldTypes(WireFields(fields));
           var n := ReadCount(WireFields(r.structs[ShapeKey(s)].fields), Version(fields));
           SplitTyped(w, ts, v.members, n);
           assert n == |v.members| ==> v.members[..n] == v.members;
           KeptAll(w, r, ts[..n], v.members[..n])
       case UnionRef =>
         if ShapeKey(s) !in r.unions || v.VUnknown? || FieldByTag(r.unions[ShapeKey(s)].fields, v.tag).None? then []
         else Kept(w, r, FieldByTag(w.unions[ShapeKey(s)].fields, v.tag).value.fieldType, v.payload))
    case _ => []
  }

  ghost function KeptAll(w: Env, r: Env, ts: seq<TypeSpec>, vs: seq<Value>): seq<nat>
    requires Compat(w, r) && AllTyped(w, ts, vs)
    decreases vs, 2
  {
    if vs == [] then [] else Kept(w, r, ts[0], vs[0]) + KeptAll(w, r, ts[1..], vs[1..])
  }

  /** Every part the reader jumps over carries no handle. */
  ghost predicate SkipsNoHandles(w: Env, r: Env, t: TypeSpec, v: Value)
    requires Compat(w, r) && WellTyped(w, t, v)
    decreases v, 1
  {
    t.shape.Handle? || (t.nullable && v == VNone) || ShapeSkipsNoHandles(w, r, t.shape, v)
  }

  ghost predicate ShapeSkipsNoHandles(w: Env, r: Env, s: Shape, v: Value)
    requires Compat(w, r) && ShapeTyped(w, s, v)
    decreases v, 0
  {
    match s
    case Array(element, _) => AllSkipNoHandles(w, r, Repeat(element, |v.elements|), v.elements)
    case Map(key, value) => AllSkipNoHandles(w, r, Alternate(key, value, |v.entries| / 2), v.entries)
    case Named(kind, _, _, _) =>
      (match kind
       case EnumRef => true
       case StructRef =>
         if ShapeKey(s) !in r.structs then AttachedShape(w, s, v) == []
         else
           var fields := w.structs[ShapeKey(s)].fields;
           var ts := FieldTypes(WireFields(fields));
           var n := ReadCount(WireFields(r.structs[ShapeKey(s)].fields), Version(fields));
           SplitTyped(w, ts, v.members, n);
           assert n == |v.members| ==> v.members[..n] == v.members;
           && AttachedAll(w, ts[n..], v.members[n..]) == []
           && AllSkipNoHandles(w, r, ts[..n], v.members[..n])
       case UnionRef =>
         if v.VUnknown? then true
         else if ShapeKey(s) !in r.unions then AttachedShape(w, s, v) == []
         else
           var t := FieldByTag(w.unions[ShapeKey(s)].fields, v.tag).value.fieldType;
           if FieldByTag(r.unions[ShapeKey(s)].fields, v.tag).None? then Attached(w, t, v.payload) == []
           else SkipsNoHandles(w, r, t, v.payload))
    case _ => true
  }

  ghost predicate AllSkipNoHandles(w: Env, r: Env, ts: seq<TypeSpec>, vs: seq<Value>)
    requires Compat(w, r) && AllTyped(w, ts, vs)
    decreases vs, 2
  {
    vs == [] || (SkipsNoHandles(w, r, ts[0], vs[0]) && AllSkipNoHandles(w, r, ts[1..], vs[1..]))
  }

  /** A key that cannot change or carry a handle on the way. */
  predicate PlainKey(t: TypeSpec) {
    t.shape.Scalar? || t.shape.String? || (t.shape.Named? && t.shape.kind.EnumRef?)
  }

  /** Every map the reader does not jump over is keyed by scalars, strings or enums. */
  ghost predicate PlainKeys(w: Env, r: Env, t: TypeSpec, v: Value)
    requires Compat(w, r) && WellTyped(w, t, v)
    decreases v, 1
  {
    t.shape.Handle? || (t.nullable && v == VNone) || ShapePlainKeys(w, r, t.shape, v)
  }

  ghost predicate ShapePlainKeys(w: Env, r: Env, s: Shape, v: Value)
    requires Compat(w, r) && ShapeTyped(w, s, v)
    decreases v, 0
  {
    match s
    case Array(element, _) => AllPlainKeys(w, r, Repeat(element, |v.elements|), v.elements)
    case Map(key, value) =>
      PlainKey(key) && AllPlainKeys(w, r, Alternate(key, value, |v.entries| / 2), v.entries)
    case Named(kind, _, _, _) =>
      (match kind
       case EnumRef => true
       case StructRef =>
         if ShapeKey(s) !in r.structs then true
         else
           var fields := w.structs[ShapeKey(s)].fields;
           var ts := FieldTypes(WireFields(fields));
           var n := ReadCount(WireFields(r.structs[ShapeKey(s)].fields), Version(fields));
           SplitTyped(w, ts, v.members, n);
           assert n == |v.members| ==> v.members[..n] == v.members;
           AllPlainKeys(w, r, ts[..n], v.members[..n])
       case UnionRef =>
         if ShapeKey(s) !in r.unions || v.VUnknown? || FieldByTag(r.unions[ShapeKey(s)].fields, v.tag).None? then true
         else PlainKeys(w, r, FieldByTag(w.unions[ShapeKey(s)].fields, v.tag).value.fieldType, v.payload))
    case _ => true
  }

  ghost predicate AllPlainKeys(w: Env, r: Env, ts: seq<TypeSpec>, vs: seq<Value>)
    requires Compat(w, r) && AllTyped(w, ts, vs)
    decreases vs, 2
  {
    vs == [] || (PlainKeys(w, r, ts[0], vs[0]) && AllPlainKeys(w, r, ts[1..], vs[1..]))
  }

  // ----- how many -----

  /** The handles of the parts that are read, against all the handles attached. */
  predicate PartOf(kept: seq<nat>, attached: seq<nat>, clean: bool) {
    && |kept| <= |attached|
    && (|kept| == |attached| <==> clean)
    && (clean ==> kept == attached)
  }

  lemma {:induction false} KeptFits(w: Env, r: Env, t: TypeSpec, v: Value)
    requires Compat(w, r) && WellTyped(w, t, v)
    ensures PartOf(Kept(w, r, t, v), Attached(w, t, v), SkipsNoHandles(w, r, t, v))
    decreases v, 1
  {
    hide KeptShape, AttachedShape, ShapeSkipsNoHandles, ShapeTyped, Compat;
    if !t.shape.Handle? && !(t.nullable && v == VNone) { KeptFitsShape(w, r, t.shape, v); }
  }

  lemma {:induction false} KeptFitsShape(w: Env, r: Env, s: Shape, v: Value)
    requires Compat(w, r) && ShapeTyped(w, s, v)
    ensures PartOf(KeptShape(w, r, s, v), AttachedShape(w, s, v), ShapeSkipsNoHandles(w, r, s, v))
    decreases v, 0
  {
    hide KeptAll, AttachedAll, AllSkipNoHandles, Kept, Attached, SkipsNoHandles, AllTyped, WellTyped;
    match s {
      case Array(element, _) => KeptFitsAll(w, r, Repeat(element, |v.elements|), v.elements);
      case Map(key, value) => KeptFitsAll(w, r, Alternate(key, value, |v.entries| / 2), v.entries);
      case Named(kind, _, _, _) =>
        match kind {
          case EnumRef =>
          case StructRef =>
            if ShapeKey(s) in r.structs {
              var fields := w.structs[ShapeKey(s)].fields;
              var ts := FieldTypes(WireFields(fields));
              var n := ReadCount(WireFields(r.structs[ShapeKey(s)].fields), Version(fields));
              SplitTyped(w, ts, v.members, n);
              assert n == |v.members| ==> v.members[..n] == v.members;
              KeptFitsAll(w, r, ts[..n], v.members[..n]);
            }
          case UnionRef =>
            if v.VUnion? && ShapeKey(s) in r.unions && FieldByTag(r.unions[ShapeKey(s)].fields, v.tag).Some? {
              KeptFits(w, r, FieldByTag(w.unions[ShapeKey(s)].fields, v.tag).value.fieldType, v.payload);
            }
        }
      case _ =>
    }
  }

  lemma {:induction false} KeptFitsAll(w: Env, r: Env, ts: seq<TypeSpec>, vs: seq<Value>)
    requires Compat(w, r) && AllTyped(w, ts, vs)
    ensures PartOf(KeptAll(w, r, ts, vs), AttachedAll(w, ts, vs), AllSkipNoHandles(w, r, ts, vs))
    decreases vs, 2
  {
    hide Kept, Attached, SkipsNoHandles, WellTyped, Compat;
    if vs != [] {
      KeptFits(w, r, ts[0], vs[0]);
      KeptFitsAll(w, r, ts[1..], vs[1..]);
    }
  }

  /** The index moves by the kept handles, and the supply runs out only when there are fewer. */
  predicate Counted<T>(rc: Receipt<T>, handles: seq<nat>, next: nat, k: nat) {
    && (rc.Got? ==> rc.next == next + k && (k == 0 || next + k <= |handles|))
    && (rc.OutOfHandles? ==> next + k > |handles|)
  }

  lemma {:induction false} TakesKept(w: Env, r: Env, t: TypeSpec, asOf: Option<nat>, v: Value,
                                     handles: seq<nat>, next: nat)
    requires Compat(w, r) && WellTyped(w, t, v)
    ensures Counted(Receive(w, r, t, asOf, v, handles, next), handles, next, |Kept(w, r, t, v)|)
    decreases v, 1
  {
    hide KeptShape, AttachedShape, ShapeTyped, Compat, ReceiveShape;
    if !t.shape.Handle? && !(t.nullable && v == VNone) { TakesKeptShape(w, r, t.shape, asOf, v, handles, next); }
  }

  lemma {:induction false} TakesKeptShape(w: Env, r: Env, s: Shape, asOf: Option<nat>, v: Value,
                                          handles: seq<nat>, next: nat)
    requires Compat(w, r) && ShapeTyped(w, s, v)
    ensures Counted(ReceiveShape(w, r, s, asOf, v, handles, next), handles, next, |KeptShape(w, r, s, v)|)
    decreases v, 0, 1
  {
    hide KeptAll, Kept, AllTyped, WellTyped, Receive, ReceiveAll, EnumReadable, EmplaceAll;
    match s {
      case Array(element, _) => TakesKeptAll(w, r, Repeat(element, |v.elements|), asOf, v.elements, handles, next);
      case Map(key, value) => TakesKeptAll(w, r, Alternate(key, value, |v.entries| / 2), asOf, v.entries, handles, next);
      case Named(kind, _, _, _) =>
        match kind {
          case EnumRef =>
          case StructRef =>
            if ShapeKey(s) in r.structs { TakesKeptStruct(w, r, s, asOf, v, handles, next); }
          case UnionRef =>
            if v.VUnion? && ShapeKey(s) in r.unions && FieldByTag(r.unions[ShapeKey(s)].fields, v.tag).Some? {
              TakesKept(w, r, FieldByTag(w.unions[ShapeKey(s)].fields, v.tag).value.fieldType, None, v.payload,
                        handles, next);
            }
        }
      case _ =>
    }
  }

  lemma {:induction false} TakesKeptStruct(w: Env, r: Env, s: Shape, asOf: Option<nat>, v: Value,
                                           handles: seq<nat>, next: nat)
    requires s.Named? && s.kind.StructRef? && ShapeKey(s) in r.structs
    requires Compat(w, r) && ShapeTyped(w, s, v)
    ensures Counted(ReceiveShape(w, r, s, asOf, v, handles, next), handles, next, |KeptShape(w, r, s, v)|)
    decreases v, 0, 0
  {
    hide KeptAll, Kept, AllTyped, WellTyped, Receive, ReceiveAll, EnumReadable, EmplaceAll, WireFields, Version, ReadCount;
    var fields := w.structs[ShapeKey(s)].fields;
    var ts := FieldTypes(WireFields(fields));
    var n := ReadCount(WireFields(r.structs[ShapeKey(s)].fields), Version(fields));
    SplitTyped(w, ts, v.members, n);
    assert n == |v.members| ==> v.members[..n] == v.members;
    TakesKeptAll(w, r, ts[..n], Some(Version(fields)), v.members[..n], handles, next);
  }

  lemma {:induction false} TakesKeptAll(w: Env, r: Env, ts: seq<TypeSpec>, asOf: Option<nat>, vs: seq<Value>,
                                        handles: seq<nat>, next: nat)
    requires Compat(w, r) && AllTyped(w, ts, vs)
    ensures Counted(ReceiveAll(w, r, ts, asOf, vs, handles, next), handles, next, |KeptAll(w, r, ts, vs)|)
    decreases vs, 2
  {
    hide Kept, Receive, WellTyped, Compat;
    if vs != [] {
      TakesKept(w, r, ts[0], asOf, vs[0], handles, next);
      var rc := Receive(w, r, ts[0], asOf, vs[0], handles, next);
      if rc.Got? { TakesKeptAll(w, r, ts[1..], asOf, vs[1..], handles, rc.next); }
    }
  }

  // ----- which -----

  /** k handles from `next` on. */
  function Window(handles: seq<nat>, next: nat, k: nat): seq<nat>
    requires next + k <= |handles|
  {
    handles[next..next + k]
  }

  lemma WindowsSplit(handles: seq<nat>, next: nat, handles': seq<nat>, next': nat, a: nat, b: nat)
    requires next + a + b <= |handles| && next' + a + b <= |handles'|
    ensures Window(handles, next, a + b) == Window(handles', next', a + b) <==>
              && Window(handles, next, a) == Window(handles', next', a)
              && Window(handles, next + a, b) == Window(handles', next' + a, b)
  {
    var both, both' := Window(handles, next, a + b), Window(handles', next', a + b);
    assert both[..a] == Window(handles, next, a) && both[a..] == Window(handles, next + a, b);
    assert both'[..a] == Window(handles', next', a) && both'[a..] == Window(handles', next' + a, b);
    assert both == both[..a] + both[a..] && both' == both'[..a] + both'[a..];
  }

  /**
    Two reads of the same encoding from two supplies of enough handles: both are refused or
    neither, both take as many handles as the kept parts have, and they give the same value when
    the handles they take are the same ones - only when, if no map key can change.
   */
  ghost predicate Alike<T>(rc: Receipt<T>, handles: seq<nat>, next: nat, rc': Receipt<T>, handles': seq<nat>, next': nat,
                           k: nat, plain: bool)
    requires next + k <= |handles| && next' + k <= |handles'|
  {
    || (rc.Refused? && rc'.Refused?)
    || (&& rc.Got? && rc'.Got?
        && rc.next == next + k && rc'.next == next' + k
        && (Window(handles, next, k) == Window(handles', next', k) ==> rc.value == rc'.value)
        && (plain && rc.value == rc'.value ==> Window(handles, next, k) == Window(handles', next', k)))
  }

  lemma {:induction false} ReceiveAlike(w: Env, r: Env, t: TypeSpec, asOf: Option<nat>, v: Value,
                                        handles: seq<nat>, next: nat, handles': seq<nat>, next': nat)
    requires Compat(w, r) && WellTyped(w, t, v)
    requires next + |Kept(w, r, t, v)| <= |handles| && next' + |Kept(w, r, t, v)| <= |handles'|
    ensures Alike(Receive(w, r, t, asOf, v, handles, next), handles, next,
                  Receive(w, r, t, asOf, v, handles', next'), handles', next',
                  |Kept(w, r, t, v)|, PlainKeys(w, r, t, v))
    decreases v, 1
  {
    hide KeptShape, AttachedShape, ShapePlainKeys, ShapeTyped, Compat, ReceiveShape;
    if t.shape.Handle? {
      if |Kept(w, r, t, v)| == 1 {
        assert Window(handles, next, 1) == [handles[next]];
        assert Window(handles', next', 1) == [handles'[next']];
      }
    } else if !(t.nullable && v == VNone) {
      AlikeShape(w, r, t.shape, asOf, v, handles, next, handles', next');
    }
  }

  lemma {:induction false} AlikeShape(w: Env, r: Env, s: Shape, asOf: Option<nat>, v: Value,
                                      handles: seq<nat>, next: nat, handles': seq<nat>, next': nat)
    requires Compat(w, r) && ShapeTyped(w, s, v)
    requires next + |KeptShape(w, r, s, v)| <= |handles| && next' + |KeptShape(w, r, s, v)| <= |handles'|
    ensures Alike(ReceiveShape(w, r, s, asOf, v, handles, next), handles, next,
                  ReceiveShape(w, r, s, asOf, v, handles', next'), handles', next',
                  |KeptShape(w, r, s, v)|, ShapePlainKeys(w, r, s, v))
    decreases v, 0, 1
  {
    hide KeptAll, AllPlainKeys, Kept, PlainKeys, AllTyped, WellTyped, Receive, ReceiveAll, Window;
    EmptyWindow(handles, next);
    EmptyWindow(handles', next');
    match s {
      case Array(element, _) =>
        AlikeAll(w, r, Repeat(element, |v.elements|), asOf, v.elements, handles, next, handles', next');
      case Map(key, value) => AlikeMap(w, r, s, asOf, v, handles, next, handles', next');
      case Named(kind, _, _, _) =>
        match kind {
          case EnumRef =>
          case StructRef =>
            if ShapeKey(s) in r.structs { AlikeStruct(w, r, s, asOf, v, handles, next, handles', next'); }
          case UnionRef =>
            if v.VUnion? && ShapeKey(s) in r.unions && FieldByTag(r.unions[ShapeKey(s)].fields, v.tag).Some? {
              ReceiveAlike(w, r, FieldByTag(w.unions[ShapeKey(s)].fields, v.tag).value.fieldType, None, v.payload,
                           handles, next, handles', next');
            }
        }
      case _ =>
    }
  }

  lemma {:induction false} AlikeStruct(w: Env, r: Env, s: Shape, asOf: Option<nat>, v: Value,
                                       handles: seq<nat>, next: nat, handles': seq<nat>, next': nat)
    requires s.Named? && s.kind.StructRef? && ShapeKey(s) in r.structs
    requires Compat(w, r) && ShapeTyped(w, s, v)
    requires next + |KeptShape(w, r, s, v)| <= |handles| && next' + |KeptShape(w, r, s, v)| <= |handles'|
    ensures Alike(ReceiveShape(w, r, s, asOf, v, handles, next), handles, next,
                  ReceiveShape(w, r, s, asOf, v, handles', next'), handles', next',
                  |KeptShape(w, r, s, v)|, ShapePlainKeys(w, r, s, v))
    decreases v, 0, 0
  {
    hide KeptAll, AllPlainKeys, Kept, PlainKeys, AllTyped, WellTyped, Receive, ReceiveAll, Window, ReadCount, Version, WireFields;
    var fields := w.structs[ShapeKey(s)].fields;
    var ts := FieldTypes(WireFields(fields));
    var reader := WireFields(r.structs[ShapeKey(s)].fields);
    var n := ReadCount(reader, Version(fields));
    SplitTyped(w, ts, v.members, n);
    assert n == |v.members| ==> v.members[..n] == v.members;
    AlikeAll(w, r, ts[..n], Some(Version(fields)), v.members[..n], handles, next, handles', next');
    var rc := ReceiveAll(w, r, ts[..n], Some(Version(fields)), v.members[..n], handles, next);
    var rc' := ReceiveAll(w, r, ts[..n], Some(Version(fields)), v.members[..n], handles', next');
    if rc.Got? {
      assert (rc.value + Initials(reader[n..]))[..n] == rc.value;
      assert (rc'.value + Initials(reader[n..]))[..n] == rc'.value;
    }
  }

  lemma {:induction false} AlikeMap(w: Env, r: Env, s: Shape, asOf: Option<nat>, v: Value,
                                    handles: seq<nat>, next: nat, handles': seq<nat>, next': nat)
    requires s.Map?
    requires Compat(w, r) && ShapeTyped(w, s, v)
    requires next + |KeptShape(w, r, s, v)| <= |handles| && next' + |KeptShape(w, r, s, v)| <= |handles'|
    ensures Alike(ReceiveShape(w, r, s, asOf, v, handles, next), handles, next,
                  ReceiveShape(w, r, s, asOf, v, handles', next'), handles', next',
                  |KeptShape(w, r, s, v)|, ShapePlainKeys(w, r, s, v))
    decreases v, 0, 0
  {
    hide KeptAll, AllPlainKeys, Kept, PlainKeys, AllTyped, WellTyped, Receive, ReceiveAll, Window, EmplaceAll, DistinctKeys;
    var ts := Alternate(s.key, s.value, |v.entries| / 2);
    AlikeAll(w, r, ts, asOf, v.entries, handles, next, handles', next');
    if ReceiveAll(w, r, ts, asOf, v.entries, handles, next).Got? && PlainKey(s.key) {
      KeysArrive(w, r, s, asOf, v, handles, next);
      KeysArrive(w, r, s, asOf, v, handles', next');
    }
  }

  /** With plain keys nothing is lost on emplacing. */
  lemma KeysArrive(w: Env, r: Env, s: Shape, asOf: Option<nat>, v: Value, handles: seq<nat>, next: nat)
    requires s.Map? && PlainKey(s.key)
    requires Compat(w, r) && ShapeTyped(w, s, v)
    ensures var rc := ReceiveAll(w, r, Alternate(s.key, s.value, |v.entries| / 2), asOf, v.entries, handles, next);
            rc.Got? ==> EmplaceAll([], rc.value) == rc.value
  {
    hide ReceiveAll, EmplaceAll, AllTyped, Compat;
    var ts := Alternate(s.key, s.value, |v.entries| / 2);
    var rc := ReceiveAll(w, r, ts, asOf, v.entries, handles, next);
    if rc.Got? {
      forall i | 0 <= i < |v.entries| && i % 2 == 0 ensures rc.value[i] == v.entries[i] {
        PlainArrives(w, r, ts, asOf, v.entries, handles, next, i);
      }
      assert [] + rc.value == rc.value;
      EmplaceLoss([], rc.value);
    }
  }

  lemma PlainIsItself(w: Env, r: Env, t: TypeSpec, asOf: Option<nat>, v: Value, handles: seq<nat>, next: nat)
    requires Compat(w, r) && WellTyped(w, t, v) && PlainKey(t)
    ensures var rc := Receive(w, r, t, asOf, v, handles, next);
            rc.Got? ==> rc.value == v
  {
    hide Compat;
    if !(t.nullable && v == VNone) {
      assert Receive(w, r, t, asOf, v, handles, next) == ReceiveShape(w, r, t.shape, asOf, v, handles, next);
    }
  }

  lemma {:induction false} PlainArrives(w: Env, r: Env, ts: seq<TypeSpec>, asOf: Option<nat>, vs: seq<Value>,
                                        handles: seq<nat>, next: nat, i: nat)
    requires Compat(w, r) && AllTyped(w, ts, vs) && i < |vs| && PlainKey(ts[i])
    ensures var rc := ReceiveAll(w, r, ts, asOf, vs, handles, next);
            rc.Got? ==> rc.value[i] == vs[i]
    decreases i
  {
    hide Compat, Receive, WellTyped;
    var first := Receive(w, r, ts[0], asOf, vs[0], handles, next);
    var rc := ReceiveAll(w, r, ts, asOf, vs, handles, next);
    if rc.Got? {
      var rest := ReceiveAll(w, r, ts[1..], asOf, vs[1..], handles, first.next);
      assert rc.value == [first.value] + rest.value;
      if i > 0 {
        PlainArrives(w, r, ts[1..], asOf, vs[1..], handles, first.next, i - 1);
      } else {
        PlainIsItself(w, r, ts[0], asOf, vs[0], handles, next);
      }
    }
  }

  lemma {:induction false} AlikeAll(w: Env, r: Env, ts: seq<TypeSpec>, asOf: Option<nat>, vs: seq<Value>,
                                    handles: seq<nat>, next: nat, handles': seq<nat>, next': nat)
    requires Compat(w, r) && AllTyped(w, ts, vs)
    requires next + |KeptAll(w, r, ts, vs)| <= |handles| && next' + |KeptAll(w, r, ts, vs)| <= |handles'|
    ensures Alike(ReceiveAll(w, r, ts, asOf, vs, handles, next), handles, next,
                  ReceiveAll(w, r, ts, asOf, vs, handles', next'), handles', next',
                  |KeptAll(w, r, ts, vs)|, AllPlainKeys(w, r, ts, vs))
    decreases vs, 2
  {
    hide Kept, Receive, PlainKeys, WellTyped, Compat, Window;
    if vs == [] {
      EmptyWindow(handles, next);
      EmptyWindow(handles', next');
    } else {
      var a, b := |Kept(w, r, ts[0], vs[0])|, |KeptAll(w, r, ts[1..], vs[1..])|;
      ReceiveAlike(w, r, ts[0], asOf, vs[0], handles, next, handles', next');
      AlikeAll(w, r, ts[1..], asOf, vs[1..], handles, next + a, handles', next' + a);
      WindowsSplit(handles, next, handles', next', a, b);
      var rc, rc' := ReceiveAll(w, r, ts, asOf, vs, handles, next), ReceiveAll(w, r, ts, asOf, vs, handles', next');
      if rc.Got? && rc'.Got? {
        assert rc.value[0] == Receive(w, r, ts[0], asOf, vs[0], handles, next).value;
        assert rc'.value[0] == Receive(w, r, ts[0], asOf, vs[0], handles', next').value;
        assert rc.value[1..] == ReceiveAll(w, r, ts[1..], asOf, vs[1..], handles, next + a).value;
        assert rc'.value[1..] == ReceiveAll(w, r, ts[1..], asOf, vs[1..], handles', next' + a).value;
      }
    }
  }

  lemma EmptyWindow(handles: seq<nat>, next: nat)
    requires next <= |handles|
    ensures Window(handles, next, 0) == []
  {
  }
}
