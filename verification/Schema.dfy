/**
  What generated code knows about a module: its structs, unions and enums by their
  generated name, the wire order of a struct's fields, and the enum checks.
 */
module Schema {
  import opened Ast
  import opened Wrappers

  /**
    `extensible` is keyed by an enum's bare name whatever it is nested in, the other
    three by the mangled name.
   */
  datatype Env = Env(
    structs: map<string, StructDecl>,
    unions: map<string, UnionDecl>,
    enums: map<string, EnumDecl>,
    extensible: set<string>)

  // ----- field order and version of a struct -----

  /** Places f in front of every field at least as new: f was declared before all of them. */
  function InsertField(f: StructField, rest: seq<StructField>): seq<StructField> {
    if rest == [] || f.minVersion <= rest[0].minVersion then [f] + rest
    else [rest[0]] + InsertField(f, rest[1..])
  }

  /** The fields in the order Write and Read visit them: a stable sort by minVersion. */
  function WireFields(fields: seq<StructField>): seq<StructField> {
    if fields == [] then [] else InsertField(fields[0], WireFields(fields[1..]))
  }

  /** The struct's own wire version. */
  function Version(fields: seq<StructField>): uint32 {
    if fields == [] then 0
    else
      var rest := Version(fields[1..]);
      if fields[0].minVersion > rest then fields[0].minVersion else rest
  }

  /** How many leading wire fields are present in a struct written at `version`. */
  function ReadCount(wire: seq<StructField>, version: nat): (n: nat)
    ensures n <= |wire|
  {
    if wire == [] || wire[0].minVersion > version then 0 else 1 + ReadCount(wire[1..], version)
  }

  function FieldTypes(fields: seq<StructField>): (r: seq<TypeSpec>)
    ensures |r| == |fields|
    ensures forall i :: 0 <= i < |r| ==> r[i] == fields[i].fieldType
  {
    seq(|fields|, i requires 0 <= i < |fields| => fields[i].fieldType)
  }

  function Initials(fields: seq<StructField>): (r: seq<Value>)
    ensures |r| == |fields|
    ensures forall i :: 0 <= i < |r| ==> r[i] == fields[i].initial
  {
    seq(|fields|, i requires 0 <= i < |fields| => fields[i].initial)
  }

  // ----- unions -----

  function FieldByTag(fields: seq<UnionField>, tag: nat): (f: Option<UnionField>)
    ensures f.Some? ==> f.value in fields && f.value.tag == tag
  {
    if fields == [] then None
    else if fields[0].tag == tag then Some(fields[0])
    else FieldByTag(fields[1..], tag)
  }

  /** The last field marked [Default], as the generator's loop leaves it. */
  function DefaultField(fields: seq<UnionField>): Option<UnionField> {
    if fields == [] then None
    else
      var later := DefaultField(fields[1..]);
      if later.Some? then later else if fields[0].isDefault then Some(fields[0]) else None
  }

  // ----- enums -----

  /** The first declared value with this number decides; later aliases are skipped. */
  function FirstValue(values: seq<EnumValue>, raw: int): Option<EnumValue> {
    if values == [] then None
    else if values[0].value == raw then Some(values[0])
    else FirstValue(values[1..], raw)
  }

  /** IsKnownX(raw) without a version, IsKnownXAsOf(raw, version) with one. */
  predicate IsKnown(e: EnumDecl, raw: int, asOf: Option<nat>) {
    match FirstValue(e.values, raw)
    case None => false
    case Some(v) => asOf.None? || asOf.value >= v.minVersion
  }

  /** The check ReadX makes on an enum value of this (named) type. */
  predicate EnumReadable(env: Env, shape: Shape, raw: int, asOf: Option<nat>)
    requires shape.Named?
  {
    || shape.name in env.extensible
    || (ShapeKey(shape) in env.enums && IsKnown(env.enums[ShapeKey(shape)], raw, asOf))
  }
}
