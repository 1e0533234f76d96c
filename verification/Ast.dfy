/**
  The tree a .voodoom file parses into, cut down to what the wire format, the
  complete-type graph, the type keys and `[EnableIf]` filtering look at.
  Field defaults are kept as the value the C++ member starts life with.
 */
module Ast {

  datatype ScalarKind =
    | Bool | Int8 | Uint8 | Int16 | Uint16 | Int32 | Uint32 | Int64 | Uint64 | Float | Double

  datatype NamedKind = EnumRef | StructRef | UnionRef

  datatype HandleKind =
    | PendingRemote | PendingReceiver | PendingAssociatedRemote | PendingAssociatedReceiver
    | AnyHandle | MessagePipe | DataPipeConsumer | DataPipeProducer | SharedBuffer | PlatformHandle

  /** `nullable` is the trailing '?'; a fixed size of 0 means an ordinary `array<T>`. */
  datatype TypeSpec = TypeSpec(shape: Shape, nullable: bool)

  datatype Shape =
    | Scalar(scalar: ScalarKind)
    | String
    | Named(kind: NamedKind, name: string, ownerNamespace: string, ownerContainer: string)
    | Array(element: TypeSpec, fixedSize: nat)
    | Map(key: TypeSpec, value: TypeSpec)
    | Handle(handle: HandleKind, iface: string, ifaceNamespace: string)

  type byte = x: int | 0 <= x < 256
  type uint32 = x: int | 0 <= x < 0x1_0000_0000
  /** A union tag is an enumerator of an int32_t enum. */
  type TagNumber = x: int | 0 <= x < 0x8000_0000

  /**
    A C++ value of some TypeSpec. Floats are carried as their bit pattern. A struct lists
    its members in wire order; a map lists its entries as key, value, key, value, ... in
    iteration order. `VUnknown` is a union holding the synthetic `Tag::kUnknown`.
   */
  datatype Value =
    | VScalar(n: int)
    | VString(chars: seq<byte>)
    | VEnum(raw: int)
    | VNone
    | VStruct(members: seq<Value>)
    | VUnion(tag: TagNumber, payload: Value)
    | VUnknown
    | VArray(elements: seq<Value>)
    | VMap(entries: seq<Value>)
    | VHandle(id: nat, version: nat)

  datatype ClauseMode = NoClause | AnyOf | AllOf
  datatype EnableIfClause = EnableIfClause(mode: ClauseMode, flags: seq<string>)
  datatype EnableIf = EnableIf(enableIf: EnableIfClause, enableIfNot: EnableIfClause)

  datatype EnumValue = EnumValue(name: string, value: int, minVersion: uint32, enableIf: EnableIf)
  datatype EnumDecl =
    EnumDecl(name: string, values: seq<EnumValue>, isExtensible: bool, enableIf: EnableIf)

  datatype StructField =
    StructField(name: string, fieldType: TypeSpec, minVersion: uint32, initial: Value, enableIf: EnableIf)
  datatype StructDecl =
    StructDecl(name: string, fields: seq<StructField>, enums: seq<EnumDecl>, declIndex: int,
               ownerContainer: string, enableIf: EnableIf)

  datatype UnionField =
    UnionField(name: string, fieldType: TypeSpec, tag: TagNumber, minVersion: uint32, isDefault: bool,
               initial: Value, enableIf: EnableIf)
  datatype UnionDecl =
    UnionDecl(name: string, fields: seq<UnionField>, declIndex: int, isExtensible: bool,
              ownerContainer: string, enableIf: EnableIf)

  datatype Param = Param(name: string, paramType: TypeSpec, minVersion: uint32, enableIf: EnableIf)

  /** What a method answers: nothing, a parameter list, or `result<T, E>`. */
  datatype Response = NoResponse | Plain(params: seq<Param>) | Result(success: TypeSpec, error: TypeSpec)

  datatype Method = Method(name: string, params: seq<Param>, response: Response, minVersion: uint32,
                           enableIf: EnableIf)

  datatype Interface =
    Interface(name: string, methods: seq<Method>, enums: seq<EnumDecl>, structs: seq<StructDecl>,
              unions: seq<UnionDecl>, enableIf: EnableIf)

  datatype Module =
    Module(name: string, enums: seq<EnumDecl>, structs: seq<StructDecl>, unions: seq<UnionDecl>,
           interfaces: seq<Interface>)

  /** `a_b` for a declaration nested in a container, the bare name at top level. */
  function Mangle(container: string, name: string): string {
    if container == "" then name else container + "_" + name
  }

  function StructKey(s: StructDecl): string { Mangle(s.ownerContainer, s.name) }

  function UnionKey(u: UnionDecl): string { Mangle(u.ownerContainer, u.name) }

  function ShapeKey(s: Shape): string
    requires s.Named?
  {
    Mangle(s.ownerContainer, s.name)
  }
}
