/**
  The type grammar: what the parser reads from a token list, and the cursor-moving parser itself.
 */
module TypeParser {
  import opened Ast
  import opened Names
  import opened Resolution
  import opened TypeKeys
  import opened Lexer
  import opened Wrappers

  datatype Parsed<+T> = Got(value: T, rest: seq<Token>) | Error

  predicate ValidMapKey(t: TypeSpec) {
    !t.nullable &&
    match t.shape
    case String => true
    case Named(_, _, _, _) => true
    case Scalar(k) => !k.Float? && !k.Double?
    case _ => false
  }

  // ----- what the grammar reads -----

  function ExpectName(toks: seq<Token>): Parsed<string> {
    if toks != [] && toks[0].Name? then Got(toks[0].text, toks[1..]) else Error
  }

  predicate AtPunct(c: char, toks: seq<Token>) { toks != [] && toks[0] == Punct(c) }

  /** `('.' Name)*` behind the segments already read. */
  function Segments(segs: seq<string>, toks: seq<Token>): (r: Parsed<seq<string>>)
    ensures r.Got? ==> |r.rest| <= |toks| && |segs| <= |r.value|
    decreases |toks|
  {
    if !AtPunct('.', toks) then Got(segs, toks)
    else
      match ExpectName(toks[1..])
      case Error => Error
      case Got(name, rest) => Segments(segs + [name], rest)
  }

  function ParseType(ctx: Context, toks: seq<Token>): (r: Parsed<TypeSpec>)
    ensures r.Got? ==> |r.rest| < |toks|
    decreases |toks|, 1
  {
    match ParseInner(ctx, toks)
    case Error => Error
    case Got(t, rest) => if AtPunct('?', rest) then Got(t.(nullable := true), rest[1..]) else Got(t, rest)
  }

  function NonNull(s: Shape): TypeSpec { TypeSpec(s, false) }

  function ParseInner(ctx: Context, toks: seq<Token>): (r: Parsed<TypeSpec>)
    ensures r.Got? ==> |r.rest| < |toks|
    decreases |toks|, 0
  {
    match ExpectName(toks)
    case Error => Error
    case Got(name, rest) =>
      if name == "string" then Got(NonNull(String), rest)
      else if name == "array" then ParseArray(ctx, rest)
      else if name == "map" || name == "hash_map" then ParseMap(ctx, rest)
      else if name == "handle" then ParseHandle(rest)
      else if name == "associated" then ParseAssociated(ctx, rest)
      else if PendingKeyword(name).Some? then ParsePending(ctx, PendingKeyword(name).value, rest)
      else if ScalarKeyword(name).Some? then Got(NonNull(Scalar(ScalarKeyword(name).value)), rest)
      else
        match Segments([name], rest)
        case Error => Error
        case Got(segs, rest') => Got(NonNull(Resolve(ctx, segs)), rest')
  }

  const INT_MAX: nat := 0x7FFF_FFFF

  function ParseArray(ctx: Context, toks: seq<Token>): (r: Parsed<TypeSpec>)
    ensures r.Got? ==> |r.rest| < |toks|
    decreases |toks|, 2
  {
    if !AtPunct('<', toks) then Error
    else
      match ParseType(ctx, toks[1..])
      case Error => Error
      case Got(element, rest) =>
        if !AtPunct(',', rest) then
          if AtPunct('>', rest) then Got(NonNull(Array(element, 0)), rest[1..]) else Error
        else
          var size := ParseSize(rest[1..]);
          if size.Got? && AtPunct('>', size.rest) then Got(NonNull(Array(element, size.value)), size.rest[1..]) else Error
  }

  /** A fixed array size: a plain decimal, positive, within `int`. */
  function ParseSize(toks: seq<Token>): (r: Parsed<nat>)
    ensures r.Got? ==> |r.rest| < |toks|
  {
    if toks == [] || !toks[0].Number? || (exists i :: 0 <= i < |toks[0].text| && !IsDigit(toks[0].text[i])) then Error
    else
      var n := DecimalValue(toks[0].text);
      if 0 < n <= INT_MAX then Got(n, toks[1..]) else Error
  }

  function ParseMap(ctx: Context, toks: seq<Token>): (r: Parsed<TypeSpec>)
    ensures r.Got? ==> |r.rest| < |toks|
    decreases |toks|, 2
  {
    if !AtPunct('<', toks) then Error
    else
      match ParseType(ctx, toks[1..])
      case Error => Error
      case Got(key, rest) =>
        if !ValidMapKey(key) || !AtPunct(',', rest) then Error
        else
          match ParseType(ctx, rest[1..])
          case Error => Error
          case Got(value, rest') =>
            if AtPunct('>', rest') then Got(NonNull(Map(key, value)), rest'[1..]) else Error
  }

  function ParseHandle(toks: seq<Token>): (r: Parsed<TypeSpec>)
    ensures r.Got? ==> |r.rest| <= |toks|
  {
    if !AtPunct('<', toks) then Got(NonNull(Handle(AnyHandle, "", "")), toks)
    else
      match ExpectName(toks[1..])
      case Error => Error
      case Got(subtype, rest) =>
        if AtPunct('>', rest) && HandleKeyword(subtype).Some?
        then Got(NonNull(Handle(HandleKeyword(subtype).value, "", "")), rest[1..])
        else Error
  }

  /** A qualified interface name, as the handle type it completes. */
  function Pending(ctx: Context, h: HandleKind, segs: seq<string>): TypeSpec
    requires segs != []
  {
    var iface := segs[|segs| - 1];
    NonNull(Handle(h, iface, OwnerForQualified(ctx, JoinDots(segs[..|segs| - 1]), iface)))
  }

  function ParseAssociated(ctx: Context, toks: seq<Token>): (r: Parsed<TypeSpec>)
    ensures r.Got? ==> |r.rest| <= |toks|
  {
    match ExpectName(toks)
    case Error => Error
    case Got(first, rest) =>
      match Segments([first], rest)
      case Error => Error
      case Got(segs, rest') =>
        if AtPunct('&', rest') then Got(Pending(ctx, PendingAssociatedReceiver, segs), rest'[1..])
        else Got(Pending(ctx, PendingAssociatedRemote, segs), rest')
  }

  function ParsePending(ctx: Context, h: HandleKind, toks: seq<Token>): (r: Parsed<TypeSpec>)
    ensures r.Got? ==> |r.rest| <= |toks|
  {
    if !AtPunct('<', toks) then Error
    else
      match ExpectName(toks[1..])
      case Error => Error
      case Got(first, rest) =>
        match Segments([first], rest)
        case Error => Error
        case Got(segs, rest') =>
          if AtPunct('>', rest') then Got(Pending(ctx, h, segs), rest'[1..]) else Error
  }

  // ----- the cursor -----

  /** The parser object: a token list ending in `End`, and the cursor into it. */
  class Parser {
    const tokens: seq<Token>
    const ctx: Context
    var pos: nat

    ghost predicate Valid()
      reads this`pos
    {
      tokens != [] && tokens[|tokens| - 1] == End && pos < |tokens|
    }

    ghost function Left(): (r: seq<Token>)
      reads this`pos
      requires Valid()
      ensures r != []
    {
      tokens[pos..]
    }

    constructor (tokens: seq<Token>, ctx: Context)
      requires tokens != [] && tokens[|tokens| - 1] == End
      ensures Valid() && this.tokens == tokens && this.ctx == ctx && Left() == tokens
    {
      this.tokens, this.ctx, this.pos := tokens, ctx, 0;
    }

    method At(c: char) returns (b: bool)
      requires Valid()
      ensures b <==> AtPunct(c, Left())
      ensures b ==> |Left()| > 1
    {
      b := tokens[pos] == Punct(c);
    }

    /** Moves on, but never past the last token. */
    method Advance()
      requires Valid()
      modifies this`pos
      ensures Valid() && Left() == if |old(Left())| > 1 then old(Left())[1..] else old(Left())
    {
      if pos + 1 < |tokens| { pos := pos + 1; }
    }

    method Expect(c: char) returns (ok: bool)
      requires Valid()
      modifies this`pos
      ensures Valid() && (ok <==> AtPunct(c, old(Left())))
      ensures Left() == if ok then old(Left())[1..] else old(Left())
    {
      ok := At(c);
      if ok { Advance(); }
    }

    method TakeName() returns (name: Option<string>)
      requires Valid()
      modifies this`pos
      ensures Valid()
      ensures match ExpectName(old(Left()))
              case Got(n, rest) => name == Some(n) && Left() == rest
              case Error => name == None && Left() == old(Left())
    {
      if !tokens[pos].Name? { return None; }
      name := Some(tokens[pos].text);
      Advance();
    }

    /** A parse came out as the grammar says; after an error the cursor is somewhere. */
    ghost predicate Reads<T(!new)>(value: Option<T>, r: Parsed<T>)
      reads this`pos
    {
      && Valid()
      && match r
         case Got(v, rest) => value == Some(v) && Left() == rest
         case Error => value == None
    }

    /** TakeQualifiedName, with the segments kept apart. */
    method TakeSegments(first: string) returns (segs: Option<seq<string>>)
      requires Valid()
      modifies this`pos
      ensures Reads(segs, Segments([first], old(Left())))
    {
      var read := [first];
      ghost var whole := Segments([first], Left());
      var dot := At('.');
      while dot
        invariant Valid() && whole == Segments(read, Left()) && (dot <==> AtPunct('.', Left()))
        decreases |Left()|
      {
        var ok := Expect('.');
        var name := TakeName();
        if name.None? { return None; }
        read := read + [name.value];
        dot := At('.');
      }
      segs := Some(read);
    }

    method ParseTypeSpec() returns (t: Option<TypeSpec>)
      requires Valid()
      modifies this`pos
      ensures Reads(t, ParseType(ctx, old(Left())))
      decreases |Left()|, 1
    {
      hide ParseInner;
      t := ParseTypeSpecInner();
      if t.None? { return None; }
      var q := Expect('?');
      if q { t := Some(t.value.(nullable := true)); }
    }

    method ParseTypeSpecInner() returns (t: Option<TypeSpec>)
      requires Valid()
      modifies this`pos
      ensures Reads(t, ParseInner(ctx, old(Left())))
      decreases |Left()|, 0
    {
      hide ParseArray, ParseMap, ParseHandle, ParseAssociated, ParsePending, Segments, PendingKeyword, ScalarKeyword, Resolve;
      var name := TakeName();
      if name.None? { return None; }
      var w := name.value;
      if w == "string" {
        t := Some(NonNull(String));
      } else if w == "array" {
        t := ReadArray();
      } else if w == "map" || w == "hash_map" {
        t := ReadMap();
      } else if w == "handle" {
        t := ReadHandle();
      } else if w == "associated" {
        t := ReadAssociated();
      } else if PendingKeyword(w).Some? {
        t := ReadPending(PendingKeyword(w).value);
      } else if ScalarKeyword(w).Some? {
        t := Some(NonNull(Scalar(ScalarKeyword(w).value)));
      } else {
        var segs := TakeSegments(w);
        if segs.None? { return None; }
        t := Some(NonNull(Resolve(ctx, segs.value)));
      }
    }

    method ReadArray() returns (t: Option<TypeSpec>)
      requires Valid()
      modifies this`pos
      ensures Reads(t, ParseArray(ctx, old(Left())))
      decreases |Left()|, 2
    {
      hide ParseType, ParseSize;
      var ok := Expect('<');
      if !ok { return None; }
      var element := ParseTypeSpec();
      if element.None? { return None; }
      var size := 0;
      var comma := Expect(',');
      if comma {
        var n := ReadSize();
        if n.None? { return None; }
        size := n.value;
      }
      ok := Expect('>');
      if !ok { return None; }
      t := Some(NonNull(Array(element.value, size)));
    }

    method ReadSize() returns (n: Option<nat>)
      requires Valid()
      modifies this`pos
      ensures Reads(n, ParseSize(old(Left())))
    {
      if !tokens[pos].Number? || exists i :: 0 <= i < |tokens[pos].text| && !IsDigit(tokens[pos].text[i]) { return None; }
      var size := DecimalValue(tokens[pos].text);
      if size <= 0 || size > INT_MAX { return None; }
      Advance();
      n := Some(size);
    }

    method ReadMap() returns (t: Option<TypeSpec>)
      requires Valid()
      modifies this`pos
      ensures Reads(t, ParseMap(ctx, old(Left())))
      decreases |Left()|, 2
    {
      hide ParseType, ValidMapKey;
      var ok := Expect('<');
      if !ok { return None; }
      var key := ParseTypeSpec();
      if key.None? || !ValidMapKey(key.value) { return None; }
      ok := Expect(',');
      if !ok { return None; }
      var value := ParseTypeSpec();
      if value.None? { return None; }
      ok := Expect('>');
      if !ok { return None; }
      t := Some(NonNull(Map(key.value, value.value)));
    }

    method ReadHandle() returns (t: Option<TypeSpec>)
      requires Valid()
      modifies this`pos
      ensures Reads(t, ParseHandle(old(Left())))
    {
      hide HandleKeyword;
      var open := Expect('<');
      if !open { return Some(NonNull(Handle(AnyHandle, "", ""))); }
      var subtype := TakeName();
      if subtype.None? { return None; }
      var ok := Expect('>');
      if !ok || HandleKeyword(subtype.value).None? { return None; }
      t := Some(NonNull(Handle(HandleKeyword(subtype.value).value, "", "")));
    }

    method ReadAssociated() returns (t: Option<TypeSpec>)
      requires Valid()
      modifies this`pos
      ensures Reads(t, ParseAssociated(ctx, old(Left())))
    {
      hide Segments, Pending;
      var first := TakeName();
      if first.None? { return None; }
      var segs := TakeSegments(first.value);
      if segs.None? { return None; }
      var receiver := Expect('&');
      t := Some(Pending(ctx, if receiver then PendingAssociatedReceiver else PendingAssociatedRemote, segs.value));
    }

    method ReadPending(h: HandleKind) returns (t: Option<TypeSpec>)
      requires Valid()
      modifies this`pos
      ensures Reads(t, ParsePending(ctx, h, old(Left())))
    {
      hide Segments, Pending;
      var ok := Expect('<');
      if !ok { return None; }
      var first := TakeName();
      if first.None? { return None; }
      var segs := TakeSegments(first.value);
      if segs.None? { return None; }
      ok := Expect('>');
      if !ok { return None; }
      t := Some(Pending(ctx, h, segs.value));
    }
  }
}
