/**
  What tokenizing and parsing a printed type key gives back: which types come back as they were,
  and why the others do not.
 */
module KeyRoundTrip {
  import opened Ast
  import opened Names
  import opened Resolution
  import opened TypeKeys
  import opened Lexer
  import opened TypeParser
  import opened Wrappers

  predicate AllIdents(segs: seq<string>) { forall i :: 0 <= i < |segs| ==> IsIdent(segs[i]) }

  /** A module name: nothing, or identifiers with dots between them. */
  ghost predicate IsQualifier(ns: string) {
    exists segs :: AllIdents(segs) && JoinDots(segs) == ns
  }

  ghost function SegmentsOf(ns: string): (segs: seq<string>)
    requires IsQualifier(ns)
    ensures AllIdents(segs) && JoinDots(segs) == ns
  {
    var segs :| AllIdents(segs) && JoinDots(segs) == ns;
    segs
  }

  /**
    What the grammar can write: sizes that fit an int, keys that may key a map, names made of
    name characters, and interfaces by an identifier behind a module name.
   */
  ghost predicate Writable(t: TypeSpec) {
    match t.shape
    case Scalar(_) => true
    case String => true
    case Named(_, name, ns, container) => IsDotted(name) && IsDotted(ns) && IsDotted(container)
    case Array(element, fixedSize) => Writable(element) && fixedSize <= INT_MAX
    case Map(key, value) => ValidMapKey(key) && Writable(key) && Writable(value)
    case Handle(h, iface, ns) => if IsPending(h) then IsIdent(iface) && IsQualifier(ns) else iface == "" && ns == ""
  }

  /** No struct, union or enum is referred to. */
  predicate RefFree(t: TypeSpec) {
    match t.shape
    case Named(_, _, _, _) => false
    case Array(element, _) => RefFree(element)
    case Map(key, value) => RefFree(key) && RefFree(value)
    case _ => true
  }

  ghost predicate Printable(t: TypeSpec) { Writable(t) && RefFree(t) }

  /** The type with every interface's module found anew from its printed name. */
  function Reread(ctx: Context, t: TypeSpec): TypeSpec {
    TypeSpec(RereadShape(ctx, t.shape), t.nullable)
  }

  function RereadShape(ctx: Context, s: Shape): Shape {
    match s
    case Array(element, fixedSize) => Array(Reread(ctx, element), fixedSize)
    case Map(key, value) => Map(Reread(ctx, key), Reread(ctx, value))
    case Handle(h, iface, ns) =>
      if IsPending(h) then Handle(h, iface, OwnerForQualified(ctx, OwnerOr(ns, ctx.moduleName), iface)) else s
    case _ => s
  }

  /** Every interface is found again in the module it came from. */
  predicate OwnersFound(ctx: Context, t: TypeSpec) {
    match t.shape
    case Array(element, _) => OwnersFound(ctx, element)
    case Map(key, value) => OwnersFound(ctx, key) && OwnersFound(ctx, value)
    case Handle(h, iface, ns) =>
      IsPending(h) ==> OwnerForQualified(ctx, OwnerOr(ns, ctx.moduleName), iface) == ns
    case _ => true
  }

  lemma {:induction false} RereadIsSame(ctx: Context, t: TypeSpec)
    ensures Reread(ctx, t) == t <==> OwnersFound(ctx, t)
  {
    match t.shape {
      case Array(element, _) => RereadIsSame(ctx, element);
      case Map(key, value) =>
        RereadIsSame(ctx, key);
        RereadIsSame(ctx, value);
      case _ =>
    }
  }

  /** Name '.' Name '.' ... */
  function DottedTokens(segs: seq<string>): seq<Token>
    requires segs != []
  {
    if |segs| == 1 then [Name(segs[0])] else [Name(segs[0]), Punct('.')] + DottedTokens(segs[1..])
  }

  /** The tokens of a printed type, in the module m. */
  ghost function ShapeTokens(s: Shape, m: string): seq<Token>
    requires Printable(NonNull(s)) && IsQualifier(m)
    decreases s, 0
  {
    match s
    case Scalar(k) => [Name(ScalarWord(k))]
    case String => [Name("string")]
    case Array(element, fixedSize) =>
      [Name("array"), Punct('<')] + TypeTokens(element, m) +
      (if fixedSize > 0 then [Punct(','), Number(Decimal(fixedSize))] else []) + [Punct('>')]
    case Map(key, value) =>
      [Name("map"), Punct('<')] + TypeTokens(key, m) + [Punct(',')] + TypeTokens(value, m) + [Punct('>')]
    case Handle(h, iface, ns) =>
      if IsPending(h) then
        [Name(PendingWord(h)), Punct('<')] + DottedTokens(SegmentsOf(OwnerOr(ns, m)) + [iface]) + [Punct('>')]
      else if h == AnyHandle then [Name("handle")]
      else [Name("handle"), Punct('<'), Name(HandleSubtype(h)), Punct('>')]
  }

  ghost function TypeTokens(t: TypeSpec, m: string): seq<Token>
    requires Printable(t) && IsQualifier(m)
    decreases t, 1
  {
    ShapeTokens(t.shape, m) + if t.nullable then [Punct('?')] else []
  }

  // ----- the lexer reads the printed text as those tokens -----

  predicate EndsPiece(rest: string) {
    rest == "" || rest[0] == ',' || rest[0] == '>' || rest[0] == '?'
  }

  /** The text lexes as these tokens in front of whatever the rest lexes as. */
  predicate LexesAs(text: string, tokens: seq<Token>, rest: string) {
    Lex(text + rest) == Push(tokens, Lex(rest))
  }

  lemma LexesConcat(a: string, ta: seq<Token>, b: string, tb: seq<Token>, rest: string)
    requires LexesAs(a, ta, b + rest) && LexesAs(b, tb, rest)
    ensures LexesAs(a + b, ta + tb, rest)
  {
    assert a + b + rest == a + (b + rest);
    var r := Lex(rest);
    if r.Some? { assert ta + (tb + r.value) == ta + tb + r.value; }
  }

  lemma LexesName(w: string, rest: string)
    requires IsIdent(w) && (rest == "" || !IsNameCont(rest[0]))
    ensures LexesAs(w, [Name(w)], rest)
  {
    LexName(w, rest);
  }

  lemma LexesPunct(c: char, rest: string)
    requires c in "<>,?." && (c == '.' ==> rest == "" || !IsDigit(rest[0]))
    ensures LexesAs([c], [Punct(c)], rest)
  {
    LexPunct(c, rest);
  }

  lemma {:induction false} JoinDotsLast(segs: seq<string>, last: string)
    requires AllIdents(segs)
    ensures JoinDots(segs + [last]) == QualName(JoinDots(segs), last)
    decreases |segs|
  {
    hide IsIdent;
    var all := segs + [last];
    if segs == [] {
      assert all == [last];
    } else {
      assert all[1..] == segs[1..] + [last] && all[0] == segs[0];
      JoinDotsLast(segs[1..], last);
      JoinDotsStart(segs);
      if |segs| == 1 {
        assert segs[1..] == [];
      } else {
        var tail := JoinDots(segs[1..]);
        JoinDotsStart(segs[1..]);
        assert segs[0] + "." + (tail + "." + last) == segs[0] + "." + tail + "." + last;
      }
    }
  }

  lemma {:induction false} LexesDotted(segs: seq<string>, rest: string)
    requires segs != [] && AllIdents(segs) && rest != "" && rest[0] == '>'
    ensures LexesAs(JoinDots(segs), DottedTokens(segs), rest)
  {
    hide Lex;
    if |segs| == 1 {
      LexesName(segs[0], rest);
    } else {
      var tail := JoinDots(segs[1..]);
      LexesDotted(segs[1..], rest);
      assert (tail + rest)[0] == segs[1][0] by { JoinDotsStart(segs[1..]); }
      LexesPunct('.', tail + rest);
      LexesConcat(".", [Punct('.')], tail, DottedTokens(segs[1..]), rest);
      LexesName(segs[0], "." + tail + rest);
      LexesConcat(segs[0], [Name(segs[0])], "." + tail, [Punct('.')] + DottedTokens(segs[1..]), rest);
      assert segs[0] + ("." + tail) == JoinDots(segs);
      assert [Name(segs[0])] + ([Punct('.')] + DottedTokens(segs[1..])) == DottedTokens(segs);
    }
  }

  lemma JoinDotsStart(segs: seq<string>)
    requires segs != [] && AllIdents(segs)
    ensures JoinDots(segs) != "" && JoinDots(segs)[0] == segs[0][0]
  {
  }

  /** A word, a bracketed inside, and the closing bracket. */
  lemma LexesBracket(w: string, inside: string, tokens: seq<Token>, rest: string)
    requires IsIdent(w) && LexesAs(inside, tokens, ">" + rest)
    ensures LexesAs(w + ("<" + inside + ">"), [Name(w), Punct('<')] + tokens + [Punct('>')], rest)
  {
    hide Lex;
    LexesPunct('>', rest);
    LexesConcat(inside, tokens, ">", [Punct('>')], rest);
    LexesPunct('<', inside + ">" + rest);
    LexesConcat("<", [Punct('<')], inside + ">", tokens + [Punct('>')], rest);
    var b := "<" + (inside + ">");
    LexesName(w, b + rest);
    LexesConcat(w, [Name(w)], b, [Punct('<')] + (tokens + [Punct('>')]), rest);
    assert w + b == w + ("<" + inside + ">");
    assert [Name(w)] + ([Punct('<')] + (tokens + [Punct('>')])) == [Name(w), Punct('<')] + tokens + [Punct('>')];
  }

  lemma {:induction false} LexesType(m: string, t: TypeSpec, rest: string)
    requires Printable(t) && IsQualifier(m) && EndsPiece(rest)
    ensures LexesAs(TypeKey(t, m), TypeTokens(t, m), rest)
    decreases t, 1
  {
    hide Lex, Word, Tail, ShapeTokens;
    var text := Word(t.shape, m) + Tail(t.shape, m);
    if t.nullable {
      LexesPunct('?', rest);
      LexesShape(m, t.shape, "?" + rest);
      LexesConcat(text, ShapeTokens(t.shape, m), "?", [Punct('?')], rest);
    } else {
      LexesShape(m, t.shape, rest);
      assert TypeKey(t, m) == text && TypeTokens(t, m) == ShapeTokens(t.shape, m);
    }
  }

  lemma {:induction false} LexesShape(m: string, s: Shape, rest: string)
    requires Printable(NonNull(s)) && IsQualifier(m) && EndsPiece(rest)
    ensures LexesAs(Word(s, m) + Tail(s, m), ShapeTokens(s, m), rest)
    decreases s, 0
  {
    hide Lex, TypeKey, TypeTokens, DottedTokens;
    match s {
      case Scalar(k) =>
        ScalarKeywordInverse(k);
        LexesName(ScalarWord(k), rest);
        assert Word(s, m) + Tail(s, m) == ScalarWord(k);
      case String =>
        LexesName("string", rest);
        assert Word(s, m) + Tail(s, m) == "string";
      case Array(_, _) =>
        LexesArray(m, s, rest);
      case Map(_, _) =>
        LexesMap(m, s, rest);
      case Handle(_, _, _) =>
        LexesHandle(m, s, rest);
    }
  }

  lemma LexesMap(m: string, s: Shape, rest: string)
    requires s.Map? && Printable(NonNull(s)) && IsQualifier(m) && EndsPiece(rest)
    ensures LexesAs(Word(s, m) + Tail(s, m), ShapeTokens(s, m), rest)
    decreases s, 0, 0
  {
    hide Lex, TypeKey, TypeTokens, DottedTokens, JoinDots;
    var k, v := TypeKey(s.key, m), TypeKey(s.value, m);
    var tk, tv := TypeTokens(s.key, m), TypeTokens(s.value, m);
    LexesType(m, s.value, ">" + rest);
    LexesPunct(',', v + (">" + rest));
    LexesConcat(",", [Punct(',')], v, tv, ">" + rest);
    LexesType(m, s.key, "," + v + (">" + rest));
    LexesConcat(k, tk, "," + v, [Punct(',')] + tv, ">" + rest);
    LexesBracket("map", k + ("," + v), tk + ([Punct(',')] + tv), rest);
    assert Word(s, m) + Tail(s, m) == "map" + ("<" + (k + ("," + v)) + ">");
    assert ShapeTokens(s, m) == [Name("map"), Punct('<')] + (tk + ([Punct(',')] + tv)) + [Punct('>')];
  }

  lemma LexesArray(m: string, s: Shape, rest: string)
    requires s.Array? && Printable(NonNull(s)) && IsQualifier(m) && EndsPiece(rest)
    ensures LexesAs(Word(s, m) + Tail(s, m), ShapeTokens(s, m), rest)
    decreases s, 0, 0
  {
    hide Lex, TypeKey, TypeTokens, Decimal;
    var e, te := TypeKey(s.element, m), TypeTokens(s.element, m);
    if s.fixedSize > 0 {
      var d := Decimal(s.fixedSize);
      LexDecimal(s.fixedSize, ">" + rest);
      LexesPunct(',', d + (">" + rest));
      LexesConcat(",", [Punct(',')], d, [Number(d)], ">" + rest);
      LexesType(m, s.element, "," + d + (">" + rest));
      LexesConcat(e, te, "," + d, [Punct(',')] + [Number(d)], ">" + rest);
      LexesBracket("array", e + ("," + d), te + ([Punct(',')] + [Number(d)]), rest);
      assert Word(s, m) + Tail(s, m) == "array" + ("<" + (e + ("," + d)) + ">");
      assert ShapeTokens(s, m) ==
        [Name("array"), Punct('<')] + (te + ([Punct(',')] + [Number(d)])) + [Punct('>')];
    } else {
      LexesType(m, s.element, ">" + rest);
      LexesBracket("array", e, te, rest);
      assert ShapeTokens(s, m) == [Name("array"), Punct('<')] + te + [Punct('>')];
    }
  }

  lemma LexesHandle(m: string, s: Shape, rest: string)
    requires s.Handle? && Printable(NonNull(s)) && IsQualifier(m) && EndsPiece(rest)
    ensures LexesAs(Word(s, m) + Tail(s, m), ShapeTokens(s, m), rest)
  {
    hide Lex, PendingKeyword, HandleKeyword, DottedTokens;
    var h := s.handle;
    if IsPending(h) {
      var segs := SegmentsOf(OwnerOr(s.ifaceNamespace, m));
      PendingKeywordInverse(h);
      JoinDotsLast(segs, s.iface);
      LexesDotted(segs + [s.iface], ">" + rest);
      LexesBracket(PendingWord(h), JoinDots(segs + [s.iface]), DottedTokens(segs + [s.iface]), rest);
      assert Word(s, m) + Tail(s, m) == PendingWord(h) + ("<" + JoinDots(segs + [s.iface]) + ">");
    } else if h == AnyHandle {
      LexesName("handle", rest);
      assert Word(s, m) + Tail(s, m) == "handle";
    } else {
      HandleKeywordInverse(h);
      LexesName(HandleSubtype(h), ">" + rest);
      LexesBracket("handle", HandleSubtype(h), [Name(HandleSubtype(h))], rest);
      assert ShapeTokens(s, m) == [Name("handle"), Punct('<')] + [Name(HandleSubtype(h))] + [Punct('>')];
    }
  }

  // ----- the parser reads those tokens as the type -----

  /** What can stand behind a type: not a '?', '<' or '.' that would be taken for part of it. */
  predicate EndsTokens(rest: seq<Token>) {
    rest == [] || (rest[0] != Punct('?') && rest[0] != Punct('<') && rest[0] != Punct('.'))
  }

  lemma {:induction false} ParsesDotted(before: seq<string>, segs: seq<string>, rest: seq<Token>)
    requires segs != [] && !AtPunct('.', rest)
    ensures Segments(before + [segs[0]], DottedTokens(segs)[1..] + rest) == Got(before + segs, rest)
    decreases |segs|
  {
    var toks := DottedTokens(segs)[1..] + rest;
    if |segs| == 1 {
      assert toks == rest && before + [segs[0]] == before + segs;
    } else {
      hide Segments;
      var more := DottedTokens(segs[1..]);
      DottedHead(segs[1..]);
      assert toks == [Punct('.'), Name(segs[1])] + (more[1..] + rest);
      SegmentsStep(before + [segs[0]], segs[1], more[1..] + rest);
      ParsesDotted(before + [segs[0]], segs[1..], rest);
      assert before + [segs[0]] + segs[1..] == before + segs;
    }
  }

  lemma SegmentsStep(before: seq<string>, name: string, more: seq<Token>)
    ensures Segments(before, [Punct('.'), Name(name)] + more) == Segments(before + [name], more)
  {
    var toks := [Punct('.'), Name(name)] + more;
    assert toks[1..] == [Name(name)] + more && toks[1..][1..] == more;
  }

  lemma {:induction false} ParsesType(ctx: Context, t: TypeSpec, rest: seq<Token>)
    requires Printable(t) && IsQualifier(ctx.moduleName) && EndsTokens(rest)
    ensures ParseType(ctx, TypeTokens(t, ctx.moduleName) + rest) == Got(Reread(ctx, t), rest)
    decreases t, 1
  {
    hide ParseInner, ShapeTokens;
    if t.nullable {
      var rest' := [Punct('?')] + rest;
      assert TypeTokens(t, ctx.moduleName) + rest == ShapeTokens(t.shape, ctx.moduleName) + rest' && rest'[1..] == rest;
      ParsesShape(ctx, t.shape, rest');
    } else {
      assert TypeTokens(t, ctx.moduleName) + rest == ShapeTokens(t.shape, ctx.moduleName) + rest;
      ParsesShape(ctx, t.shape, rest);
    }
  }

  predicate EndsShapeTokens(rest: seq<Token>) {
    rest == [] || (rest[0] != Punct('<') && rest[0] != Punct('.'))
  }

  lemma {:induction false} ParsesShape(ctx: Context, s: Shape, rest: seq<Token>)
    requires Printable(NonNull(s)) && IsQualifier(ctx.moduleName)
    requires EndsShapeTokens(rest)
    ensures ParseInner(ctx, ShapeTokens(s, ctx.moduleName) + rest) == Got(NonNull(RereadShape(ctx, s)), rest)
    decreases s, 0, 1
  {
    hide ParseType, TypeTokens, DottedTokens, Segments, PendingKeyword, ScalarKeyword, HandleKeyword;
    match s {
      case Scalar(k) =>
        ScalarKeywordInverse(k);
        assert (ShapeTokens(s, ctx.moduleName) + rest)[1..] == rest;
      case String => assert (ShapeTokens(s, ctx.moduleName) + rest)[1..] == rest;
      case Array(_, _) => ParsesArray(ctx, s, rest);
      case Map(_, _) => ParsesMap(ctx, s, rest);
      case Handle(_, _, _) => ParsesHandle(ctx, s, rest);
    }
  }

  lemma ParsesSize(n: nat, rest: seq<Token>)
    requires 0 < n <= INT_MAX
    ensures ParseSize([Number(Decimal(n))] + rest) == Got(n, rest)
  {
    hide Decimal, DecimalValue;
    DecimalInverse(n);
    assert ([Number(Decimal(n))] + rest)[1..] == rest;
  }

  /** An element and a size, behind the opening bracket. */
  lemma ParsesBracket(ctx: Context, element: TypeSpec, n: nat, toks: seq<Token>, close: seq<Token>)
    requires n <= INT_MAX && AtPunct('>', close)
    requires var size := if n > 0 then [Punct(','), Number(Decimal(n))] else [];
             ParseType(ctx, toks) == Got(element, size + close)
    ensures ParseArray(ctx, [Punct('<')] + toks) == Got(NonNull(Array(element, n)), close[1..])
  {
    hide ParseType, Decimal, ParseSize;
    assert ([Punct('<')] + toks)[1..] == toks;
    if n > 0 {
      var size := [Punct(','), Number(Decimal(n))];
      assert (size + close)[1..] == [Number(Decimal(n))] + close;
      ParsesSize(n, close);
    } else {
      assert [] + close == close;
    }
  }

  /** What stands between an array's opening bracket and what follows it. */
  ghost function ArrayInside(s: Shape, m: string, rest: seq<Token>): seq<Token>
    requires s.Array? && Printable(NonNull(s)) && IsQualifier(m)
  {
    var size := if s.fixedSize > 0 then [Punct(','), Number(Decimal(s.fixedSize))] else [];
    TypeTokens(s.element, m) + (size + ([Punct('>')] + rest))
  }

  lemma ArrayTokens(s: Shape, m: string, rest: seq<Token>)
    requires s.Array? && Printable(NonNull(s)) && IsQualifier(m)
    ensures ShapeTokens(s, m) + rest == [Name("array")] + ([Punct('<')] + ArrayInside(s, m, rest))
  {
    hide TypeTokens, IsQualifier, Decimal;
  }

  lemma {:induction false} ParsesArray(ctx: Context, s: Shape, rest: seq<Token>)
    requires s.Array? && Printable(NonNull(s)) && IsQualifier(ctx.moduleName)
    ensures ParseInner(ctx, ShapeTokens(s, ctx.moduleName) + rest) == Got(NonNull(RereadShape(ctx, s)), rest)
    decreases s, 0, 0
  {
    hide ParseType, TypeTokens, ShapeTokens, Segments, PendingKeyword, ScalarKeyword, Decimal, ParseSize, Reread, IsQualifier,
         ParseMap, ParseHandle, ParsePending, ParseAssociated, ParseArray;
    var close := [Punct('>')] + rest;
    var size := if s.fixedSize > 0 then [Punct(','), Number(Decimal(s.fixedSize))] else [];
    var inside := ArrayInside(s, ctx.moduleName, rest);
    ArrayTokens(s, ctx.moduleName, rest);
    assert ([Name("array")] + ([Punct('<')] + inside))[1..] == [Punct('<')] + inside;
    ParsesType(ctx, s.element, size + close);
    ParsesBracket(ctx, Reread(ctx, s.element), s.fixedSize, inside, close);
    assert close[1..] == rest;
  }

  lemma RereadKey(ctx: Context, t: TypeSpec)
    requires ValidMapKey(t)
    ensures ValidMapKey(Reread(ctx, t))
  {
  }

  lemma {:induction false} ParsesMap(ctx: Context, s: Shape, rest: seq<Token>)
    requires s.Map? && Printable(NonNull(s)) && IsQualifier(ctx.moduleName)
    ensures ParseInner(ctx, ShapeTokens(s, ctx.moduleName) + rest) == Got(NonNull(RereadShape(ctx, s)), rest)
    decreases s, 0, 0
  {
    hide ParseType, TypeTokens, Segments, PendingKeyword, ScalarKeyword, Resolve, ValidMapKey, Reread, IsQualifier;
    RereadKey(ctx, s.key);
    var close := [Punct('>')] + rest;
    var toks := ShapeTokens(s, ctx.moduleName) + rest;
    var mid := [Punct(',')] + (TypeTokens(s.value, ctx.moduleName) + close);
    assert toks == [Name("map"), Punct('<')] + (TypeTokens(s.key, ctx.moduleName) + mid);
    assert toks[1..][1..] == TypeTokens(s.key, ctx.moduleName) + mid;
    assert mid[1..] == TypeTokens(s.value, ctx.moduleName) + close && close[1..] == rest;
    ParsesType(ctx, s.key, mid);
    ParsesType(ctx, s.value, close);
  }

  lemma ParsesHandle(ctx: Context, s: Shape, rest: seq<Token>)
    requires s.Handle? && Printable(NonNull(s)) && IsQualifier(ctx.moduleName)
    requires EndsShapeTokens(rest)
    ensures ParseInner(ctx, ShapeTokens(s, ctx.moduleName) + rest) == Got(NonNull(RereadShape(ctx, s)), rest)
  {
    hide ParsePending, ParseHandle, PendingKeyword, ScalarKeyword, HandleKeyword, DottedTokens, JoinDots;
    var h := s.handle;
    var toks, close := ShapeTokens(s, ctx.moduleName) + rest, [Punct('>')] + rest;
    if IsPending(h) {
      PendingKeywordInverse(h);
      var segs := SegmentsOf(OwnerOr(s.ifaceNamespace, ctx.moduleName));
      var inner := [Punct('<')] + (DottedTokens(segs + [s.iface]) + close);
      assert toks == [Name(PendingWord(h))] + inner && toks[1..] == inner;
      ParsesPending(ctx, segs, s, rest);
    } else if h == AnyHandle {
      assert toks[1..] == rest;
      ParsesRawHandle(s, rest);
    } else {
      assert toks[1..] == [Punct('<'), Name(HandleSubtype(h)), Punct('>')] + rest;
      ParsesRawHandle(s, rest);
    }
  }

  lemma ParsesPending(ctx: Context, segs: seq<string>, s: Shape, rest: seq<Token>)
    requires s.Handle? && IsPending(s.handle) && JoinDots(segs) == OwnerOr(s.ifaceNamespace, ctx.moduleName)
    ensures ParsePending(ctx, s.handle, [Punct('<')] + (DottedTokens(segs + [s.iface]) + ([Punct('>')] + rest))) ==
            Got(NonNull(RereadShape(ctx, s)), rest)
  {
    hide Segments, DottedTokens, JoinDots, OwnerForQualified, OwnerOr;
    var names, close := segs + [s.iface], [Punct('>')] + rest;
    DottedHead(names);
    var inner := DottedTokens(names) + close;
    assert ([Punct('<')] + inner)[1..] == inner && close[1..] == rest;
    assert inner[1..] == DottedTokens(names)[1..] + close;
    ParsesDotted([], names, close);
    assert [] + [names[0]] == [names[0]] && [] + names == names;
    assert names[..|names| - 1] == segs;
  }

  lemma ParsesRawHandle(s: Shape, rest: seq<Token>)
    requires s.Handle? && !IsPending(s.handle) && s.iface == "" && s.ifaceNamespace == "" && EndsShapeTokens(rest)
    ensures s.handle == AnyHandle ==> ParseHandle(rest) == Got(NonNull(s), rest)
    ensures s.handle != AnyHandle ==>
      ParseHandle([Punct('<'), Name(HandleSubtype(s.handle)), Punct('>')] + rest) == Got(NonNull(s), rest)
  {
    hide HandleKeyword;
    var h := s.handle;
    if h != AnyHandle {
      HandleKeywordInverse(h);
      var toks := [Punct('<'), Name(HandleSubtype(h)), Punct('>')] + rest;
      assert toks[1..] == [Name(HandleSubtype(h)), Punct('>')] + rest;
      assert toks[1..][1..] == [Punct('>')] + rest;
      assert toks[1..][1..][1..] == rest;
    }
  }

  lemma DottedHead(segs: seq<string>)
    requires segs != []
    ensures DottedTokens(segs) != [] && DottedTokens(segs)[0] == Name(segs[0])
  {
  }

  // ----- references do not lex -----

  /** A text without comments and string literals. */
  predicate Clean(text: string) { '/' !in text && '"' !in text }

  /** A turn of the lexer's loop on such a text never takes a colon. */
  lemma StepTakesNoColon(src: string)
    requires src != "" && Clean(src) && !Step(src).Bad?
    ensures forall i :: 0 <= i < Step(src).n ==> src[i] != ':'
  {
    var n := Step(src).n;
    if IsNameStart(src[0]) {
      assert forall i :: 0 <= i < n ==> IsNameCont(src[i]);
    } else if StartsHex(src) {
      assert forall i :: 2 <= i < n ==> src[i] == src[2..][i - 2] && IsHexDigit(src[2..][i - 2]);
    } else if IsDigit(src[0]) {
      NumberTakesNoColon(src);
    } else if src[0] == '.' && |src| > 1 && IsDigit(src[1]) {
      FloatTakesNoColon(src);
    }
  }

  lemma NumberTakesNoColon(src: string)
    requires src != "" && IsDigit(src[0]) && !LexNumber(src).Bad?
    ensures forall i :: 0 <= i < LexNumber(src).n ==> src[i] != ':'
  {
    hide Run, FloatRun;
    var whole := Run(src, IsDigit);
    FloatTakesNoColon(src[whole..]);
    assert forall i :: whole <= i < |src| ==> src[i] == src[whole..][i - whole];
  }

  lemma FloatTakesNoColon(src: string)
    ensures forall i :: 0 <= i < FloatRun(src) ==> src[i] != ':'
  {
    hide Run, ExponentRun;
    var f := FractionRun(src);
    assert forall i :: 1 <= i < |src| ==> src[i] == src[1..][i - 1];
    ExponentTakesNoColon(src[f..]);
    assert forall i :: f <= i < |src| ==> src[i] == src[f..][i - f];
  }

  lemma ExponentTakesNoColon(src: string)
    ensures forall i :: 0 <= i < ExponentRun(src) ==> src[i] != ':'
  {
    hide Run;
    if ExponentRun(src) > 0 {
      var j := if src[1] == '+' || src[1] == '-' then 2 else 1;
      assert forall i :: j <= i < |src| ==> src[i] == src[j..][i - j];
    }
  }

  lemma {:induction false} ColonDoesNotLex(src: string)
    requires ':' in src && Clean(src)
    ensures Lex(src).None?
    decreases |src|
  {
    hide Step;
    assert src[0] in src;
    if !Step(src).Bad? {
      var n := Step(src).n;
      StepTakesNoColon(src);
      var i :| 0 <= i < |src| && src[i] == ':';
      assert src[n..][i - n] == ':';
      ColonDoesNotLex(src[n..]);
    }
  }

  lemma {:induction false} JoinDotsIsClean(segs: seq<string>)
    requires AllIdents(segs)
    ensures Clean(JoinDots(segs))
  {
    if segs != [] {
      assert Clean(segs[0]);
      JoinDotsIsClean(segs[1..]);
    }
  }

  lemma {:induction false} KeyIsClean(t: TypeSpec, m: string)
    requires Writable(t) && Clean(m)
    ensures Clean(TypeKey(t, m))
    decreases t, 1
  {
    hide Word, Tail;
    WordIsClean(t, m);
    TailIsClean(t, m);
  }

  lemma WordIsClean(t: TypeSpec, m: string)
    requires Writable(t) && Clean(m)
    ensures Clean(Word(t.shape, m))
  {
    hide ScalarWord, PendingWord, ScalarKeyword, PendingKeyword, IsQualifier, ValidMapKey, Clean, IsIdent, KindPrefix,
         DottedName;
    match t.shape {
      case Scalar(k) =>
        ScalarKeywordInverse(k);
        IdentIsClean(ScalarWord(k));
      case Handle(h, _, _) =>
        if IsPending(h) {
          PendingKeywordInverse(h);
          IdentIsClean(PendingWord(h));
        } else {
          KeywordsAreClean();
        }
      case Named(kind, name, ns, container) =>
        NamedIsClean(t.shape, m);
        CleanConcat(KindPrefix(kind), DottedName(t.shape, m));
      case _ => KeywordsAreClean();
    }
  }

  lemma KeywordsAreClean()
    ensures Clean("string") && Clean("array") && Clean("map") && Clean("handle")
  {
  }

  lemma NamedIsClean(s: Shape, m: string)
    requires s.Named? && IsDotted(s.name) && IsDotted(s.ownerNamespace) && IsDotted(s.ownerContainer) && Clean(m)
    ensures Clean(KindPrefix(s.kind)) && Clean(DottedName(s, m))
  {
    hide QualName;
    DottedIsClean([s.name, s.ownerNamespace, s.ownerContainer]);
    var names := [s.name, s.ownerNamespace, s.ownerContainer];
    assert Clean(names[0]) && Clean(names[1]) && Clean(names[2]);
    QualNameIsClean(OwnerOr(s.ownerNamespace, m),
                    if s.kind.EnumRef? && s.ownerContainer != "" then s.ownerContainer + "." + s.name else s.name);
  }

  lemma IdentIsClean(w: string)
    requires IsIdent(w)
    ensures Clean(w)
  {
  }

  lemma DottedIsClean(names: seq<string>)
    requires forall i :: 0 <= i < |names| ==> IsDotted(names[i])
    ensures forall i :: 0 <= i < |names| ==> Clean(names[i])
  {
  }

  lemma CleanConcat(a: string, b: string)
    requires Clean(a) && Clean(b)
    ensures Clean(a + b)
  {
  }

  lemma BracketIsClean(a: string, b: string)
    requires Clean(a) && Clean(b)
    ensures Clean("<" + a + ">") && Clean("<" + a + "," + b + ">")
  {
    CleanConcat("<", a);
    CleanConcat("<" + a, ">");
    CleanConcat("<" + a, ",");
    CleanConcat("<" + a + ",", b);
    CleanConcat("<" + a + "," + b, ">");
  }

  lemma {:induction false} TailIsClean(t: TypeSpec, m: string)
    requires Writable(t) && Clean(m)
    ensures Clean(Tail(t.shape, m))
    decreases t, 0
  {
    hide TypeKey, Decimal, Clean, IsQualifier, QualName, HandleSubtype;
    match t.shape {
      case Array(element, fixedSize) =>
        KeyIsClean(element, m);
        DigitsAreClean(Decimal(fixedSize));
        BracketIsClean(TypeKey(element, m), Decimal(fixedSize));
      case Map(key, value) =>
        KeyIsClean(key, m);
        KeyIsClean(value, m);
        BracketIsClean(TypeKey(key, m), TypeKey(value, m));
      case Handle(h, iface, ns) =>
        if IsPending(h) {
          JoinDotsIsClean(SegmentsOf(ns));
          IdentIsClean(iface);
          QualNameIsClean(OwnerOr(ns, m), iface);
          BracketIsClean(QualName(OwnerOr(ns, m), iface), QualName(OwnerOr(ns, m), iface));
        } else if h != AnyHandle {
          HandleKeywordInverse(h);
          IdentIsClean(HandleSubtype(h));
          BracketIsClean(HandleSubtype(h), HandleSubtype(h));
        } else {
          NothingIsClean();
        }
      case _ => NothingIsClean();
    }
  }

  lemma QualNameIsClean(ns: string, name: string)
    requires Clean(ns) && Clean(name)
    ensures Clean(QualName(ns, name))
  {
  }

  lemma DigitsAreClean(digits: string)
    requires forall i :: 0 <= i < |digits| ==> IsDigit(digits[i])
    ensures Clean(digits)
  {
  }

  lemma NothingIsClean()
    ensures Clean("") && HandleSubtype(AnyHandle) == ""
  {
  }

  /** Every reference prints its kind and a colon. */
  lemma {:induction false} RefHasColon(t: TypeSpec, m: string)
    ensures !RefFree(t) ==> ':' in TypeKey(t, m)
  {
    match t.shape {
      case Named(kind, _, _, _) =>
        var prefix := KindPrefix(kind);
        assert prefix[|prefix| - 1] == ':';
      case Array(element, _) => RefHasColon(element, m);
      case Map(key, value) =>
        RefHasColon(key, m);
        RefHasColon(value, m);
      case _ =>
    }
  }

  // ----- the round trip -----

  /**
    In a module with any dotted name, a printed type can be tokenized exactly when it refers to
    no struct, union or enum. Parsing the tokens then leaves just the end token and gives the type
    with its interfaces looked up anew: the type itself exactly when each of them is found again in
    the module it came from.
   */
  lemma PrintParse(ctx: Context, t: TypeSpec)
    requires Writable(t) && IsQualifier(ctx.moduleName)
    ensures var tokens := Lex(TypeKey(t, ctx.moduleName));
            && (tokens.Some? <==> RefFree(t))
            && (tokens.Some? ==> ParseType(ctx, tokens.value) == Got(Reread(ctx, t), [End]))
            && (tokens.Some? && ParseType(ctx, tokens.value) == Got(t, [End]) <==> RefFree(t) && OwnersFound(ctx, t))
  {
    hide ParseType, TypeTokens, TypeKey, Lex, Reread, OwnersFound, Writable, IsQualifier, RefFree;
    var key := TypeKey(t, ctx.moduleName);
    RereadIsSame(ctx, t);
    if RefFree(t) {
      LexesType(ctx.moduleName, t, "");
      ParsesType(ctx, t, [End]);
      assert key + "" == key;
      NothingLexes();
    } else {
      RefHasColon(t, ctx.moduleName);
      JoinDotsIsClean(SegmentsOf(ctx.moduleName));
      KeyIsClean(t, ctx.moduleName);
      ColonDoesNotLex(key);
    }
  }

  lemma NothingLexes()
    ensures Lex("") == Some([End])
  {
  }

  /** The same, through the tokenizer's loop and the parser's cursor. */
  method Reparse(ctx: Context, t: TypeSpec) returns (back: Option<TypeSpec>, last: bool)
    requires Writable(t) && IsQualifier(ctx.moduleName)
    ensures back == if RefFree(t) then Some(Reread(ctx, t)) else None
    ensures back == Some(t) <==> RefFree(t) && OwnersFound(ctx, t)
    ensures last <==> RefFree(t)
  {
    hide ParseType, TypeKey, Lex, Reread, OwnersFound, Writable, IsQualifier, RefFree;
    PrintParse(ctx, t);
    RereadIsSame(ctx, t);
    var tokens := Tokenize(TypeKey(t, ctx.moduleName));
    if tokens.None? { return None, false; }
    LexEnds(TypeKey(t, ctx.moduleName));
    var p := new Parser(tokens.value, ctx);
    back := p.ParseTypeSpec();
    last := p.pos == |p.tokens| - 1;
  }

  lemma {:induction false} LexEnds(src: string)
    ensures Lex(src).Some? ==> Lex(src).value != [] && Lex(src).value[|Lex(src).value| - 1] == End
    decreases |src|
  {
    hide Step;
    if src != "" && !Step(src).Bad? {
      LexEnds(src[Step(src).n..]);
    }
  }
}
