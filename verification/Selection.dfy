/**
  What `[EnableIf]` filtering leaves of a module: exactly the declarations and members whose
  attributes the flags satisfy, in their order, and nothing else changed.
 */
module Selection {
  import opened Ast
  import opened Filtering

  // ----- which attributes are satisfied -----

  /** `[EnableIf=a|b]` asks for one of its flags, `[EnableIf=a&b]` for all of them and at least one. */
  predicate Allows(c: EnableIfClause, enabled: set<string>) {
    || c.mode == NoClause
    || (c.mode == AnyOf && exists i :: 0 <= i < |c.flags| && c.flags[i] in enabled)
    || (c.mode == AllOf && |c.flags| > 0 && forall i :: 0 <= i < |c.flags| ==> c.flags[i] in enabled)
  }

  /** `[EnableIfNot=a|b]` asks for none of its flags, `[EnableIfNot=a&b]` for one that is off. */
  predicate DoesNotForbid(c: EnableIfClause, enabled: set<string>) {
    || c.mode == NoClause
    || (c.mode == AnyOf && forall i :: 0 <= i < |c.flags| ==> c.flags[i] !in enabled)
    || (c.mode == AllOf && (|c.flags| == 0 || exists i :: 0 <= i < |c.flags| && c.flags[i] !in enabled))
  }

  predicate Wanted(spec: EnableIf, enabled: set<string>) {
    Allows(spec.enableIf, enabled) && DoesNotForbid(spec.enableIfNot, enabled)
  }

  lemma EnabledIsWanted(spec: EnableIf, enabled: set<string>)
    ensures IsDeclEnabled(spec, enabled) <==> Wanted(spec, enabled)
  {
    ClauseIs(spec.enableIf, enabled);
    ClauseIs(spec.enableIfNot, enabled);
  }

  lemma ClauseIs(c: EnableIfClause, enabled: set<string>)
    ensures ClauseMatches(c, enabled, false) <==> Allows(c, enabled)
    ensures ClauseMatches(c, enabled, true) <==> DoesNotForbid(c, enabled)
  {
    if f :| f in c.flags && f in enabled {
      var i :| 0 <= i < |c.flags| && c.flags[i] == f;
    }
    if f :| f in c.flags && f !in enabled {
      var i :| 0 <= i < |c.flags| && c.flags[i] == f;
    }
    assert forall i :: 0 <= i < |c.flags| ==> c.flags[i] in c.flags;
  }

  // ----- choosing from a list -----

  predicate Increasing(at: seq<nat>) { forall j, k :: 0 <= j < k < |at| ==> at[j] < at[k] }

  /** `part` comes from the elements of `whole` to keep, in their order, each as `becomes` says. */
  ghost predicate Chosen<T>(part: seq<T>, whole: seq<T>, keep: T -> bool, becomes: (T, T) -> bool) {
    exists at :: ChosenAt(part, whole, keep, becomes, at)
  }

  ghost predicate ChosenAt<T>(part: seq<T>, whole: seq<T>, keep: T -> bool, becomes: (T, T) -> bool, at: seq<nat>) {
    Increasing(at) && Covers(at, whole, keep) && Turns(part, whole, becomes, at)
  }

  /** Exactly the positions of elements to keep. */
  ghost predicate Covers<T>(at: seq<nat>, whole: seq<T>, keep: T -> bool) {
    forall i: nat :: i in at <==> i < |whole| && keep(whole[i])
  }

  ghost predicate Turns<T>(part: seq<T>, whole: seq<T>, becomes: (T, T) -> bool, at: seq<nat>) {
    |at| == |part| && forall k :: 0 <= k < |part| ==> at[k] < |whole| && becomes(part[k], whole[at[k]])
  }

  lemma ChosenNothing<T>(keep: T -> bool, becomes: (T, T) -> bool)
    ensures Chosen([], [], keep, becomes)
  {
    assert ChosenAt([], [], keep, becomes, []);
  }

  function Shift(at: seq<nat>): (r: seq<nat>)
    ensures |r| == |at| && forall k :: 0 <= k < |r| ==> r[k] == at[k] + 1
  {
    seq(|at|, k requires 0 <= k < |at| => at[k] + 1)
  }

  lemma ShiftMembers(at: seq<nat>)
    ensures forall i: nat :: i in Shift(at) <==> i > 0 && i - 1 in at
  {
    forall i: nat ensures i in Shift(at) <==> i > 0 && i - 1 in at {
      if i in Shift(at) { var k :| 0 <= k < |at| && Shift(at)[k] == i; }
      if i > 0 && i - 1 in at { var k :| 0 <= k < |at| && at[k] == i - 1; assert Shift(at)[k] == i; }
    }
  }

  /** The positions chosen, when the first element stays or goes. */
  function Positions(stays: bool, rest: seq<nat>): seq<nat> { (if stays then [0] else []) + Shift(rest) }

  lemma PositionsIncrease(stays: bool, rest: seq<nat>)
    requires Increasing(rest)
    ensures Increasing(Positions(stays, rest))
  {
  }

  lemma PositionsAre<T>(whole: seq<T>, keep: T -> bool, rest: seq<nat>)
    requires whole != [] && Covers(rest, whole[1..], keep)
    ensures Covers(Positions(keep(whole[0]), rest), whole, keep)
  {
    ShiftMembers(rest);
    forall i: nat ensures i in Positions(keep(whole[0]), rest) <==> i < |whole| && keep(whole[i]) {
      assert i in Positions(keep(whole[0]), rest) <==> (i == 0 && keep(whole[0])) || i in Shift(rest);
      if i > 0 { assert i - 1 in rest <==> i - 1 < |whole[1..]| && keep(whole[1..][i - 1]); }
    }
  }

  /** The first element stays or goes. */
  lemma ChosenFirst<T>(first: seq<T>, part: seq<T>, whole: seq<T>, keep: T -> bool, becomes: (T, T) -> bool)
    requires whole != [] && Chosen(part, whole[1..], keep, becomes)
    requires if keep(whole[0]) then |first| == 1 && becomes(first[0], whole[0]) else first == []
    ensures Chosen(first + part, whole, keep, becomes)
  {
    hide Increasing, Covers, Turns;
    var rest :| ChosenAt(part, whole[1..], keep, becomes, rest);
    PositionsIncrease(keep(whole[0]), rest);
    PositionsAre(whole, keep, rest);
    PositionsTurn(first, part, whole, keep(whole[0]), becomes, rest);
    assert ChosenAt(first + part, whole, keep, becomes, Positions(keep(whole[0]), rest));
  }

  lemma PositionsTurn<T>(first: seq<T>, part: seq<T>, whole: seq<T>, stays: bool, becomes: (T, T) -> bool, rest: seq<nat>)
    requires whole != [] && Turns(part, whole[1..], becomes, rest)
    requires if stays then |first| == 1 && becomes(first[0], whole[0]) else first == []
    ensures Turns(first + part, whole, becomes, Positions(stays, rest))
  {
    var at, all := Positions(stays, rest), first + part;
    forall k | 0 <= k < |all| ensures at[k] < |whole| && becomes(all[k], whole[at[k]]) {
      var j := k - |first|;
      if j >= 0 { assert at[k] == rest[j] + 1 && whole[1..][rest[j]] == whole[at[k]] && all[k] == part[j]; }
    }
  }

  /** The elements whose attribute is satisfied. */
  function ByAttribute<T>(spec: T -> EnableIf, enabled: set<string>): T -> bool { x => Wanted(spec(x), enabled) }

  function Same<T(==)>(): (T, T) -> bool { (a, b) => a == b }

  /** Erasing chooses the wanted elements as they are. */
  lemma {:induction false} EraseChooses<T>(v: seq<T>, spec: T -> EnableIf, enabled: set<string>)
    ensures Chosen(EraseDisabled(v, spec, enabled), v, ByAttribute(spec, enabled), Same())
  {
    hide Chosen, Wanted, IsDeclEnabled;
    if v == [] {
      ChosenNothing(ByAttribute(spec, enabled), Same());
    } else {
      EraseChooses(v[1..], spec, enabled);
      EnabledIsWanted(spec(v[0]), enabled);
      var first := if IsDeclEnabled(spec(v[0]), enabled) then [v[0]] else [];
      ChosenFirst(first, EraseDisabled(v[1..], spec, enabled), v, ByAttribute(spec, enabled), Same());
    }
  }

  // ----- declarations -----

  ghost predicate EnumBecomes(e: EnumDecl, from: EnumDecl, enabled: set<string>) {
    && e == from.(values := e.values)
    && Chosen(e.values, from.values, ByAttribute((v: EnumValue) => v.enableIf, enabled), Same())
  }

  ghost function EnumRule(enabled: set<string>): (EnumDecl, EnumDecl) -> bool { (a, b) => EnumBecomes(a, b, enabled) }

  ghost predicate EnumsBecome(part: seq<EnumDecl>, whole: seq<EnumDecl>, enabled: set<string>) {
    Chosen(part, whole, ByAttribute((e: EnumDecl) => e.enableIf, enabled), EnumRule(enabled))
  }

  ghost predicate StructBecomes(s: StructDecl, from: StructDecl, enabled: set<string>) {
    && s == from.(fields := s.fields, enums := s.enums)
    && Chosen(s.fields, from.fields, ByAttribute((f: StructField) => f.enableIf, enabled), Same())
    && EnumsBecome(s.enums, from.enums, enabled)
  }

  ghost function StructRule(enabled: set<string>): (StructDecl, StructDecl) -> bool { (a, b) => StructBecomes(a, b, enabled) }

  ghost predicate StructsBecome(part: seq<StructDecl>, whole: seq<StructDecl>, enabled: set<string>) {
    Chosen(part, whole, ByAttribute((s: StructDecl) => s.enableIf, enabled), StructRule(enabled))
  }

  ghost predicate UnionBecomes(u: UnionDecl, from: UnionDecl, enabled: set<string>) {
    && u == from.(fields := u.fields)
    && Chosen(u.fields, from.fields, ByAttribute((f: UnionField) => f.enableIf, enabled), Same())
  }

  function UnionsWanted(enabled: set<string>): UnionDecl -> bool { u => UnionWanted(u, enabled) }

  /** A union also goes when none of its fields is left. */
  predicate UnionWanted(u: UnionDecl, enabled: set<string>) {
    Wanted(u.enableIf, enabled) && exists i :: 0 <= i < |u.fields| && Wanted(u.fields[i].enableIf, enabled)
  }

  ghost function UnionRule(enabled: set<string>): (UnionDecl, UnionDecl) -> bool { (a, b) => UnionBecomes(a, b, enabled) }

  ghost predicate UnionsBecome(part: seq<UnionDecl>, whole: seq<UnionDecl>, enabled: set<string>) {
    Chosen(part, whole, UnionsWanted(enabled), UnionRule(enabled))
  }

  ghost predicate InterfaceBecomes(i: Interface, from: Interface, enabled: set<string>) {
    && i == from.(methods := i.methods, enums := i.enums, structs := i.structs, unions := i.unions)
    && Chosen(i.methods, from.methods, ByAttribute((m: Method) => m.enableIf, enabled), Same())
    && EnumsBecome(i.enums, from.enums, enabled)
    && StructsBecome(i.structs, from.structs, enabled)
    && UnionsBecome(i.unions, from.unions, enabled)
  }

  ghost function InterfaceRule(enabled: set<string>): (Interface, Interface) -> bool { (a, b) => InterfaceBecomes(a, b, enabled) }

  ghost predicate InterfacesBecome(part: seq<Interface>, whole: seq<Interface>, enabled: set<string>) {
    Chosen(part, whole, ByAttribute((i: Interface) => i.enableIf, enabled), InterfaceRule(enabled))
  }

  lemma {:induction false} EnumsChosen(enums: seq<EnumDecl>, enabled: set<string>)
    ensures EnumsBecome(FilterEnums(EraseDisabled(enums, (e: EnumDecl) => e.enableIf, enabled), enabled), enums, enabled)
  {
    hide Chosen, Wanted, IsDeclEnabled;
    var keep, becomes := ByAttribute((e: EnumDecl) => e.enableIf, enabled), EnumRule(enabled);
    var spec := (e: EnumDecl) => e.enableIf;
    if enums == [] {
      ChosenNothing(keep, becomes);
    } else {
      EnumsChosen(enums[1..], enabled);
      EnabledIsWanted(enums[0].enableIf, enabled);
      EraseChooses(enums[0].values, (v: EnumValue) => v.enableIf, enabled);
      var rest := EraseDisabled(enums[1..], spec, enabled);
      var first := if IsDeclEnabled(enums[0].enableIf, enabled) then [FilterEnum(enums[0], enabled)] else [];
      ChosenFirst(first, FilterEnums(rest, enabled), enums, keep, becomes);
      if first != [] { assert ([enums[0]] + rest)[1..] == rest; } else { assert [] + rest == rest; }
      assert [] + FilterEnums(rest, enabled) == FilterEnums(rest, enabled);
    }
  }

  lemma {:induction false} StructsChosen(structs: seq<StructDecl>, enabled: set<string>)
    ensures StructsBecome(EnabledStructs(structs, enabled), structs, enabled)
  {
    hide Chosen, Wanted, IsDeclEnabled;
    var keep, becomes := ByAttribute((s: StructDecl) => s.enableIf, enabled), StructRule(enabled);
    var spec := (s: StructDecl) => s.enableIf;
    if structs == [] {
      ChosenNothing(keep, becomes);
    } else {
      var s := structs[0];
      StructsChosen(structs[1..], enabled);
      EnabledIsWanted(s.enableIf, enabled);
      EraseChooses(s.fields, (f: StructField) => f.enableIf, enabled);
      EnumsChosen(s.enums, enabled);
      var rest := EraseDisabled(structs[1..], spec, enabled);
      var first := if IsDeclEnabled(s.enableIf, enabled) then [FilterStruct(s, enabled)] else [];
      ChosenFirst(first, FilterStructs(rest, enabled), structs, keep, becomes);
      if first != [] { assert ([s] + rest)[1..] == rest; } else { assert [] + rest == rest; }
      assert [] + FilterStructs(rest, enabled) == FilterStructs(rest, enabled);
    }
  }

  /** Erasing leaves something exactly when something is wanted. */
  lemma {:induction false} EraseLeaves<T>(v: seq<T>, spec: T -> EnableIf, enabled: set<string>)
    ensures EraseDisabled(v, spec, enabled) != [] <==> exists i :: 0 <= i < |v| && Wanted(spec(v[i]), enabled)
  {
    hide Wanted, IsDeclEnabled;
    if v != [] {
      EraseLeaves(v[1..], spec, enabled);
      EnabledIsWanted(spec(v[0]), enabled);
      if i :| 0 <= i < |v[1..]| && Wanted(spec(v[1..][i]), enabled) { assert Wanted(spec(v[i + 1]), enabled); }
      if i :| 0 <= i < |v| && Wanted(spec(v[i]), enabled) { assert i > 0 ==> v[1..][i - 1] == v[i]; }
    }
  }

  lemma {:induction false} UnionsChosen(unions: seq<UnionDecl>, enabled: set<string>)
    ensures UnionsBecome(EnabledUnions(unions, enabled), unions, enabled)
  {
    hide Chosen, Wanted, IsDeclEnabled;
    var keep, becomes := UnionsWanted(enabled), UnionRule(enabled);
    var spec := (u: UnionDecl) => u.enableIf;
    if unions == [] {
      ChosenNothing(keep, becomes);
    } else {
      var u := unions[0];
      UnionsChosen(unions[1..], enabled);
      EnabledIsWanted(u.enableIf, enabled);
      EraseChooses(u.fields, (f: UnionField) => f.enableIf, enabled);
      EraseLeaves(u.fields, (f: UnionField) => f.enableIf, enabled);
      var rest := EraseDisabled(unions[1..], spec, enabled);
      var filtered := FilterUnion(u, enabled);
      var first := if IsDeclEnabled(u.enableIf, enabled) && filtered.fields != [] then [filtered] else [];
      assert UnionWanted(u, enabled) <==> first != [];
      ChosenFirst(first, FilterUnions(rest, enabled), unions, keep, becomes);
      if IsDeclEnabled(u.enableIf, enabled) { assert ([u] + rest)[1..] == rest; } else { assert [] + rest == rest; }
      assert [] + FilterUnions(rest, enabled) == FilterUnions(rest, enabled);
    }
  }

  lemma {:induction false} InterfacesChosen(interfaces: seq<Interface>, enabled: set<string>)
    ensures InterfacesBecome(EnabledInterfaces(interfaces, enabled), interfaces, enabled)
  {
    hide Chosen, Wanted, IsDeclEnabled, EnabledStructs, EnabledUnions;
    var keep, becomes := ByAttribute((i: Interface) => i.enableIf, enabled), InterfaceRule(enabled);
    var spec := (i: Interface) => i.enableIf;
    if interfaces == [] {
      ChosenNothing(keep, becomes);
    } else {
      var i := interfaces[0];
      InterfacesChosen(interfaces[1..], enabled);
      EnabledIsWanted(i.enableIf, enabled);
      EraseChooses(i.methods, (m: Method) => m.enableIf, enabled);
      EnumsChosen(i.enums, enabled);
      StructsChosen(i.structs, enabled);
      UnionsChosen(i.unions, enabled);
      var rest := EraseDisabled(interfaces[1..], spec, enabled);
      var first := if IsDeclEnabled(i.enableIf, enabled) then [FilterInterface(i, enabled)] else [];
      ChosenFirst(first, FilterInterfaces(rest, enabled), interfaces, keep, becomes);
      if first != [] { assert ([i] + rest)[1..] == rest; } else { assert [] + rest == rest; }
      assert [] + FilterInterfaces(rest, enabled) == FilterInterfaces(rest, enabled);
    }
  }

  /** Filtering a module. */
  lemma ModuleBecomes(m: Module, enabled: set<string>)
    ensures var out := ApplyEnableIf(m, enabled);
            && out == m.(enums := out.enums, structs := out.structs, unions := out.unions, interfaces := out.interfaces)
            && EnumsBecome(out.enums, m.enums, enabled)
            && StructsBecome(out.structs, m.structs, enabled)
            && UnionsBecome(out.unions, m.unions, enabled)
            && InterfacesBecome(out.interfaces, m.interfaces, enabled)
  {
    hide EnumsBecome, StructsBecome, UnionsBecome, InterfacesBecome, EnabledStructs, EnabledUnions, EnabledInterfaces;
    EnumsChosen(m.enums, enabled);
    StructsChosen(m.structs, enabled);
    UnionsChosen(m.unions, enabled);
    InterfacesChosen(m.interfaces, enabled);
  }
}
