/**
  The strings a module's types and methods are interned under, and what those strings identify.
 */
module TypeKeys {
  import opened Ast
  import opened Names
  import opened Wrappers

  function ScalarWord(k: ScalarKind): string {
    match k
    case Bool => "bool"
    case Int8 => "int8"
    case Uint8 => "uint8"
    case Int16 => "int16"
    case Uint16 => "uint16"
    case Int32 => "int32"
    case Uint32 => "uint32"
    case Int64 => "int64"
    case Uint64 => "uint64"
    case Float => "float"
    case Double => "double"
  }

  predicate IsPending(h: HandleKind) {
    h.PendingRemote? || h.PendingReceiver? || h.PendingAssociatedRemote? || h.PendingAssociatedReceiver?
  }

  function PendingWord(h: HandleKind): string
    requires IsPending(h)
  {
    match h
    case PendingRemote => "pending_remote"
    case PendingReceiver => "pending_receiver"
    case PendingAssociatedRemote => "pending_associated_remote"
    case PendingAssociatedReceiver => "pending_associated_receiver"
  }

  /** The subtype inside `handle<...>`; empty for a bare `handle`. */
  function HandleSubtype(h: HandleKind): string
    requires !IsPending(h)
  {
    match h
    case AnyHandle => ""
    case MessagePipe => "message_pipe"
    case DataPipeConsumer => "data_pipe_consumer"
    case DataPipeProducer => "data_pipe_producer"
    case SharedBuffer => "shared_buffer"
    case PlatformHandle => "platform"
  }

  function KindPrefix(k: NamedKind): string {
    match k
    case EnumRef => "enum:"
    case StructRef => "struct:"
    case UnionRef => "union:"
  }

  function OwnerOr(owner: string, currentNs: string): string {
    if owner == "" then currentNs else owner
  }

  /** The name printed for a reference; only an enum shows what it is nested in. */
  function DottedName(s: Shape, currentNs: string): string
    requires s.Named?
  {
    var name := if s.kind.EnumRef? && s.ownerContainer != "" then s.ownerContainer + "." + s.name else s.name;
    QualName(OwnerOr(s.ownerNamespace, currentNs), name)
  }

  /** The text up to the first bracket. */
  function Word(s: Shape, currentNs: string): string {
    match s
    case Scalar(k) => ScalarWord(k)
    case String => "string"
    case Named(kind, _, _, _) => KindPrefix(kind) + DottedName(s, currentNs)
    case Array(_, _) => "array"
    case Map(_, _) => "map"
    case Handle(h, _, _) => if IsPending(h) then PendingWord(h) else "handle"
  }

  /** The bracketed rest. */
  function Tail(s: Shape, currentNs: string): string
    decreases s, 0
  {
    match s
    case Array(element, fixedSize) =>
      if fixedSize > 0 then "<" + TypeKey(element, currentNs) + "," + Decimal(fixedSize) + ">"
      else "<" + TypeKey(element, currentNs) + ">"
    case Map(key, value) => "<" + TypeKey(key, currentNs) + "," + TypeKey(value, currentNs) + ">"
    case Handle(h, iface, ns) =>
      if IsPending(h) then "<" + QualName(OwnerOr(ns, currentNs), iface) + ">"
      else if HandleSubtype(h) == "" then ""
      else "<" + HandleSubtype(h) + ">"
    case _ => ""
  }

  function TypeKey(t: TypeSpec, currentNs: string): string
    decreases t, 1
  {
    Word(t.shape, currentNs) + Tail(t.shape, currentNs) + if t.nullable then "?" else ""
  }

  function JoinKeys(ts: seq<TypeSpec>, ns: string): string {
    if ts == [] then ""
    else if |ts| == 1 then TypeKey(ts[0], ns)
    else TypeKey(ts[0], ns) + "," + JoinKeys(ts[1..], ns)
  }

  function ParamTypes(ps: seq<Param>): (ts: seq<TypeSpec>)
    ensures |ts| == |ps|
  {
    seq(|ps|, i requires 0 <= i < |ps| => ps[i].paramType)
  }

  function ResponseKey(r: Response, ns: string): string {
    match r
    case NoResponse => ""
    case Plain(params) => "->(" + JoinKeys(ParamTypes(params), ns) + ")"
    case Result(success, error) => "->result<" + TypeKey(success, ns) + "," + TypeKey(error, ns) + ">"
  }

  function MethodKey(ns: string, iface: string, m: Method): string {
    "func " + QualName(ns, iface) + "." + m.name + "(" + JoinKeys(ParamTypes(m.params), ns) + ")" +
    ResponseKey(m.response, ns)
  }

  // ----- as texts -----

  function Plainly(s: Shape): TypeSpec { TypeSpec(s, false) }

  /** References show their kind and module, and only enums what they are nested in. */
  lemma ReferenceTexts()
    ensures TypeKey(Plainly(Named(StructRef, "S", "", "C")), "m.n") == "struct:m.n.S"
    ensures TypeKey(Plainly(Named(UnionRef, "U", "o", "")), "m.n") == "union:o.U"
    ensures TypeKey(Plainly(Named(EnumRef, "E", "", "C")), "m.n") == "enum:m.n.C.E"
    ensures TypeKey(Plainly(Named(EnumRef, "E", "", "")), "") == "enum:E"
  {
  }

  /** A method's key begins with "func", its interface and its name, and shows how it answers. */
  lemma MethodTexts(spec: EnableIf)
    ensures MethodKey("", "I", Method("F", [], NoResponse, 0, spec)) == "func I.F()"
    ensures MethodKey("", "I", Method("F", [], Plain([]), 0, spec)) == "func I.F()->()"
  {
    assert JoinKeys([], "") == "" && ParamTypes([]) == [];
    assert "func " + "I" + "." + "F" + "(" + "" + ")" == "func I.F()";
    assert "->(" + "" + ")" == "->()";
  }

  // ----- what a key stands for -----

  /** The same type with every reference replaced by its fully qualified dotted name. */
  function Qualified(t: TypeSpec, ns: string): TypeSpec {
    var shape :=
      match t.shape
      case Named(kind, _, _, _) => Named(kind, DottedName(t.shape, ns), "", "")
      case Array(element, fixedSize) => Array(Qualified(element, ns), fixedSize)
      case Map(key, value) => Map(Qualified(key, ns), Qualified(value, ns))
      case Handle(h, iface, owner) =>
        if IsPending(h) then Handle(h, QualName(OwnerOr(owner, ns), iface), "") else Handle(h, "", "")
      case s => s;
    TypeSpec(shape, t.nullable)
  }

  function QualifiedAll(ts: seq<TypeSpec>, ns: string): seq<TypeSpec> {
    if ts == [] then [] else [Qualified(ts[0], ns)] + QualifiedAll(ts[1..], ns)
  }

  function QualifiedResponse(r: Response, ns: string): (Option<seq<TypeSpec>>, Option<(TypeSpec, TypeSpec)>) {
    match r
    case NoResponse => (None, None)
    case Plain(params) => (Some(QualifiedAll(ParamTypes(params), ns)), None)
    case Result(success, error) => (None, Some((Qualified(success, ns), Qualified(error, ns))))
  }

  /** Every name in t is spelled from name characters, namespaces from those and dots. */
  predicate Spelled(t: TypeSpec) {
    match t.shape
    case Named(_, name, ns, container) => IsDotted(name) && IsDotted(ns) && IsDotted(container)
    case Array(element, _) => Spelled(element)
    case Map(key, value) => Spelled(key) && Spelled(value)
    case Handle(_, iface, ns) => IsDotted(iface) && IsDotted(ns)
    case _ => true
  }

  predicate AllSpelled(ts: seq<TypeSpec>) { forall i :: 0 <= i < |ts| ==> Spelled(ts[i]) }

  // ----- reading the head of a key back -----

  datatype Head =
    | OfScalar(k: ScalarKind)
    | OfString
    | OfNamed(kind: NamedKind, dotted: string)
    | OfArray
    | OfMap
    | OfPending(h: HandleKind)
    | OfHandle
    | Unknown

  function ScalarKeyword(w: string): Option<ScalarKind> {
    if w == "bool" then Some(Bool)
    else if w == "int8" then Some(Int8)
    else if w == "uint8" then Some(Uint8)
    else if w == "int16" then Some(Int16)
    else if w == "uint16" then Some(Uint16)
    else if w == "int32" then Some(Int32)
    else if w == "uint32" then Some(Uint32)
    else if w == "int64" then Some(Int64)
    else if w == "uint64" then Some(Uint64)
    else if w == "float" then Some(Float)
    else if w == "double" then Some(Double)
    else None
  }

  function PendingKeyword(w: string): Option<HandleKind> {
    if w == "pending_remote" then Some(PendingRemote)
    else if w == "pending_receiver" then Some(PendingReceiver)
    else if w == "pending_associated_remote" then Some(PendingAssociatedRemote)
    else if w == "pending_associated_receiver" then Some(PendingAssociatedReceiver)
    else None
  }

  function HandleKeyword(w: string): Option<HandleKind> {
    if w == "message_pipe" then Some(MessagePipe)
    else if w == "data_pipe_consumer" then Some(DataPipeConsumer)
    else if w == "data_pipe_producer" then Some(DataPipeProducer)
    else if w == "shared_buffer" then Some(SharedBuffer)
    else if w == "platform" || w == "mach_send" || w == "mach_receive" || w == "mach_port" then Some(PlatformHandle)
    else None
  }

  function Classify(w: string): Head {
    if |w| >= 5 && w[4] == ':' then OfNamed(EnumRef, w[5..])
    else if |w| >= 7 && w[6] == ':' then OfNamed(StructRef, w[7..])
    else if |w| >= 6 && w[5] == ':' then OfNamed(UnionRef, w[6..])
    else if w == "string" then OfString
    else if w == "array" then OfArray
    else if w == "map" then OfMap
    else if w == "handle" then OfHandle
    else if PendingKeyword(w).Some? then OfPending(PendingKeyword(w).value)
    else if ScalarKeyword(w).Some? then OfScalar(ScalarKeyword(w).value)
    else Unknown
  }

  function HeadOf(s: Shape, ns: string): Head {
    match s
    case Scalar(k) => OfScalar(k)
    case String => OfString
    case Named(kind, _, _, _) => OfNamed(kind, DottedName(s, ns))
    case Array(_, _) => OfArray
    case Map(_, _) => OfMap
    case Handle(h, _, _) => if IsPending(h) then OfPending(h) else OfHandle
  }

  lemma ScalarKeywordInverse(k: ScalarKind)
    ensures ScalarKeyword(ScalarWord(k)) == Some(k) && PendingKeyword(ScalarWord(k)).None?
    ensures ScalarWord(k) !in {"string", "array", "map", "hash_map", "handle", "associated"}
    ensures IsIdent(ScalarWord(k))
  {
    hide IsIdent;
    ScalarWordIsIdent(k);
    ScalarWordIsApart(k);
  }

  lemma ScalarWordIsIdent(k: ScalarKind)
    ensures IsIdent(ScalarWord(k))
  {
  }

  lemma ScalarWordIsApart(k: ScalarKind)
    ensures PendingKeyword(ScalarWord(k)).None?
    ensures ScalarWord(k) !in {"string", "array", "map", "hash_map", "handle", "associated"}
  {
  }

  lemma PendingKeywordInverse(h: HandleKind)
    requires IsPending(h)
    ensures PendingKeyword(PendingWord(h)) == Some(h)
    ensures PendingWord(h) !in {"string", "array", "map", "hash_map", "handle", "associated"}
    ensures IsIdent(PendingWord(h))
  {
  }

  lemma HandleKeywordInverse(h: HandleKind)
    requires !IsPending(h) && h != AnyHandle
    ensures HandleKeyword(HandleSubtype(h)) == Some(h) && IsIdent(HandleSubtype(h))
  {
  }

  lemma ClassifyWord(s: Shape, ns: string)
    requires s.Named? ==> IsDotted(DottedName(s, ns))
    ensures Classify(Word(s, ns)) == HeadOf(s, ns)
  {
    hide ScalarKeyword, PendingKeyword, ScalarWord, PendingWord, KindPrefix, DottedName, Classify;
    match s {
      case Scalar(k) =>
        ScalarKeywordInverse(k);
        ClassifyIdent(ScalarWord(k));
      case Handle(h, _, _) =>
        if IsPending(h) {
          PendingKeywordInverse(h);
          ClassifyIdent(PendingWord(h));
        } else {
          ClassifyKeywords();
        }
      case Named(kind, _, _, _) => ClassifyNamed(kind, DottedName(s, ns));
      case _ => ClassifyKeywords();
    }
  }

  lemma ClassifyKeywords()
    ensures Classify("string") == OfString && Classify("array") == OfArray && Classify("map") == OfMap
    ensures Classify("handle") == OfHandle
  {
    hide ScalarKeyword, PendingKeyword;
  }

  /** A word without a colon is looked up. */
  lemma ClassifyIdent(w: string)
    requires IsIdent(w) && w !in {"string", "array", "map", "hash_map", "handle", "associated"}
    ensures Classify(w) == if PendingKeyword(w).Some? then OfPending(PendingKeyword(w).value)
                           else if ScalarKeyword(w).Some? then OfScalar(ScalarKeyword(w).value)
                           else Unknown
  {
    hide ScalarKeyword, PendingKeyword;
  }

  lemma ClassifyNamed(kind: NamedKind, dotted: string)
    requires IsDotted(dotted)
    ensures Classify(KindPrefix(kind) + dotted) == OfNamed(kind, dotted)
  {
    hide ScalarKeyword, PendingKeyword;
    var w := KindPrefix(kind) + dotted;
    assert w[..|KindPrefix(kind)|] == KindPrefix(kind) && w[|KindPrefix(kind)|..] == dotted;
    if kind.StructRef? { assert w[4] == 'c' && w[6] == ':'; }
    if kind.UnionRef? { assert w[4] == 'n' && w[5] == ':' && (|w| >= 7 ==> w[6] == dotted[0]); }
    if kind.EnumRef? { assert w[4] == ':'; }
  }
}
