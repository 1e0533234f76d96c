/**
  The type grammar rule by rule: what each form of type reads as, and what is rejected.
 */
module Grammar {
  import opened Ast
  import opened Names
  import opened Lexer
  import opened Resolution
  import opened TypeKeys
  import opened TypeParser
  import opened Wrappers

  /** No '?' follows that would make the type nullable. */
  predicate NoMark(rest: seq<Token>) { !AtPunct('?', rest) }

  /** A type of one word. */
  predicate WordReads(ctx: Context, w: string, s: Shape, rest: seq<Token>) {
    ParseType(ctx, [Name(w)] + rest) == Got(TypeSpec(s, false), rest)
  }

  lemma WordRest(w: string, rest: seq<Token>)
    ensures ([Name(w)] + rest)[0] == Name(w) && ([Name(w)] + rest)[1..] == rest
  {
  }

  lemma OneWord(ctx: Context, w: string, k: ScalarKind, rest: seq<Token>)
    requires NoMark(rest) && ScalarKeyword(w) == Some(k) && PendingKeyword(w).None?
    requires w !in {"string", "array", "map", "hash_map", "handle", "associated"}
    ensures WordReads(ctx, w, Scalar(k), rest)
  {
    hide ScalarKeyword, PendingKeyword, ParseArray, ParseMap, ParseHandle, ParseAssociated, ParsePending, Segments, Resolve;
    WordRest(w, rest);
    var toks := [Name(w)] + rest;
    assert ExpectName(toks) == Got(w, rest);
    assert ParseInner(ctx, toks) == Got(NonNull(Scalar(k)), rest);
  }

  /** The words of the simple types. */
  lemma SimpleWords(ctx: Context, rest: seq<Token>)
    requires NoMark(rest)
    ensures WordReads(ctx, "bool", Scalar(Bool), rest) && WordReads(ctx, "string", String, rest)
    ensures WordReads(ctx, "int8", Scalar(Int8), rest) && WordReads(ctx, "uint8", Scalar(Uint8), rest)
    ensures WordReads(ctx, "int16", Scalar(Int16), rest) && WordReads(ctx, "uint16", Scalar(Uint16), rest)
    ensures WordReads(ctx, "int32", Scalar(Int32), rest) && WordReads(ctx, "uint32", Scalar(Uint32), rest)
    ensures WordReads(ctx, "int64", Scalar(Int64), rest) && WordReads(ctx, "uint64", Scalar(Uint64), rest)
    ensures WordReads(ctx, "float", Scalar(Float), rest) && WordReads(ctx, "double", Scalar(Double), rest)
  {
    hide WordReads;
    OneWord(ctx, "bool", Bool, rest);
    OneWord(ctx, "int8", Int8, rest);
    OneWord(ctx, "uint8", Uint8, rest);
    OneWord(ctx, "int16", Int16, rest);
    OneWord(ctx, "uint16", Uint16, rest);
    OneWord(ctx, "int32", Int32, rest);
    OneWord(ctx, "uint32", Uint32, rest);
    OneWord(ctx, "int64", Int64, rest);
    OneWord(ctx, "uint64", Uint64, rest);
    OneWord(ctx, "float", Float, rest);
    OneWord(ctx, "double", Double, rest);
    StringWord(ctx, rest);
  }

  lemma StringWord(ctx: Context, rest: seq<Token>)
    requires NoMark(rest)
    ensures WordReads(ctx, "string", String, rest)
  {
    WordRest("string", rest);
  }

  /** A '?' behind a type makes it nullable. */
  lemma MarkRule(ctx: Context, toks: seq<Token>, t: TypeSpec, rest: seq<Token>)
    requires ParseInner(ctx, toks) == Got(t, [Punct('?')] + rest)
    ensures ParseType(ctx, toks) == Got(TypeSpec(t.shape, true), rest)
  {
    assert ([Punct('?')] + rest)[1..] == rest;
  }

  // ----- arrays -----

  lemma ArrayWord(ctx: Context, toks: seq<Token>)
    ensures ParseInner(ctx, [Name("array")] + toks) == ParseArray(ctx, toks)
  {
    WordRest("array", toks);
  }

  lemma Bracketed(toks: seq<Token>)
    ensures ([Punct('<')] + toks)[1..] == toks && AtPunct('<', [Punct('<')] + toks)
  {
  }

  /** `array<T>`. */
  lemma ArrayRule(ctx: Context, toks: seq<Token>, t: TypeSpec, rest: seq<Token>)
    requires ParseType(ctx, toks) == Got(t, [Punct('>')] + rest) && NoMark(rest)
    ensures ParseType(ctx, [Name("array")] + ([Punct('<')] + toks)) == Got(TypeSpec(Array(t, 0), false), rest)
  {
    hide ParseInner, ParseSize;
    ArrayWord(ctx, [Punct('<')] + toks);
    Bracketed(toks);
    assert ([Punct('>')] + rest)[1..] == rest;
    assert ParseType(ctx, ([Punct('<')] + toks)[1..]) == Got(t, [Punct('>')] + rest);
  }

  /** `array<T, N>`: N is a plain decimal from 1 to 0x7FFFFFFF, and anything else an error. */
  lemma FixedArrayRule(ctx: Context, toks: seq<Token>, t: TypeSpec, size: Token, rest: seq<Token>)
    requires ParseType(ctx, toks) == Got(t, [Punct(',')] + ([size] + ([Punct('>')] + rest))) && NoMark(rest)
    ensures ParseType(ctx, [Name("array")] + ([Punct('<')] + toks)) ==
            if size.Number? && (forall i :: 0 <= i < |size.text| ==> IsDigit(size.text[i]))
               && 1 <= DecimalValue(size.text) <= 0x7FFF_FFFF
            then Got(TypeSpec(Array(t, DecimalValue(size.text)), false), rest) else Error
  {
    hide ParseInner, DecimalValue;
    ArrayWord(ctx, [Punct('<')] + toks);
    Bracketed(toks);
    var close := [Punct('>')] + rest;
    assert ([Punct(',')] + ([size] + close))[1..] == [size] + close && ([size] + close)[1..] == close && close[1..] == rest;
    assert ParseType(ctx, ([Punct('<')] + toks)[1..]) == Got(t, [Punct(',')] + ([size] + close));
  }

  // ----- maps -----

  lemma MapWord(ctx: Context, w: string, toks: seq<Token>)
    requires w == "map" || w == "hash_map"
    ensures ParseInner(ctx, [Name(w)] + toks) == ParseMap(ctx, toks)
  {
    WordRest(w, toks);
  }

  /** `map<K, V>` and `hash_map<K, V>`: K is not nullable, and no float, double, array, map, handle or endpoint. */
  lemma MapRule(ctx: Context, w: string, toks: seq<Token>, k: TypeSpec, more: seq<Token>, v: TypeSpec, rest: seq<Token>)
    requires w == "map" || w == "hash_map"
    requires ParseType(ctx, toks) == Got(k, [Punct(',')] + more) && ParseType(ctx, more) == Got(v, [Punct('>')] + rest)
    requires NoMark(rest)
    ensures ParseType(ctx, [Name(w)] + ([Punct('<')] + toks)) ==
            if k.nullable || k.shape == Scalar(Float) || k.shape == Scalar(Double) || k.shape.Array? || k.shape.Map? || k.shape.Handle?
            then Error else Got(TypeSpec(Map(k, v), false), rest)
  {
    hide ParseInner;
    MapWord(ctx, w, [Punct('<')] + toks);
    Bracketed(toks);
    assert ([Punct(',')] + more)[1..] == more && ([Punct('>')] + rest)[1..] == rest;
    assert ParseType(ctx, ([Punct('<')] + toks)[1..]) == Got(k, [Punct(',')] + more);
  }

  /** Neither goes without its bracket. */
  lemma BracketNeeded(ctx: Context, w: string, toks: seq<Token>)
    requires w in {"array", "map", "hash_map"} && !AtPunct('<', toks)
    ensures ParseType(ctx, [Name(w)] + toks) == Error
  {
    if w == "array" { ArrayWord(ctx, toks); } else { MapWord(ctx, w, toks); }
  }

  // ----- handles -----

  lemma HandleWord(ctx: Context, toks: seq<Token>)
    ensures ParseInner(ctx, [Name("handle")] + toks) == ParseHandle(toks)
  {
    WordRest("handle", toks);
  }

  /** `handle` alone is any handle. */
  lemma BareHandleRule(ctx: Context, rest: seq<Token>)
    requires !AtPunct('<', rest) && NoMark(rest)
    ensures ParseType(ctx, [Name("handle")] + rest) == Got(TypeSpec(Handle(AnyHandle, "", ""), false), rest)
  {
    hide ParseInner, HandleKeyword;
    HandleWord(ctx, rest);
  }

  /** `handle<S>`: the subtypes there are, the Mach ones standing for platform handles. */
  lemma HandleRule(ctx: Context, w: string, rest: seq<Token>)
    requires NoMark(rest)
    ensures ParseType(ctx, [Name("handle")] + ([Punct('<')] + ([Name(w)] + ([Punct('>')] + rest)))) ==
      if w == "message_pipe" then Got(TypeSpec(Handle(MessagePipe, "", ""), false), rest)
      else if w == "data_pipe_consumer" then Got(TypeSpec(Handle(DataPipeConsumer, "", ""), false), rest)
      else if w == "data_pipe_producer" then Got(TypeSpec(Handle(DataPipeProducer, "", ""), false), rest)
      else if w == "shared_buffer" then Got(TypeSpec(Handle(SharedBuffer, "", ""), false), rest)
      else if w == "platform" || w == "mach_send" || w == "mach_receive" || w == "mach_port" then
        Got(TypeSpec(Handle(PlatformHandle, "", ""), false), rest)
      else Error
  {
    hide ParseInner;
    var close := [Punct('>')] + rest;
    var inside := [Name(w)] + close;
    HandleWord(ctx, [Punct('<')] + inside);
    Bracketed(inside);
    assert inside[1..] == close && close[1..] == rest;
  }

  // ----- endpoints -----

  /** `Name.Name...`, read as far as it goes. */
  predicate NameReads(toks: seq<Token>, segs: seq<string>, rest: seq<Token>) {
    toks != [] && toks[0].Name? && segs != [] && Segments([toks[0].text], toks[1..]) == Got(segs, rest)
  }

  /** The module in front of a dotted name. */
  function Front(segs: seq<string>): string
    requires segs != []
  {
    JoinDots(segs[..|segs| - 1])
  }

  /** The endpoint of an interface: by its last name, in the module in front of it, or the one it belongs to. */
  predicate IsEndpoint(ctx: Context, s: Shape, h: HandleKind, segs: seq<string>)
    requires segs != []
  {
    && s.Handle? && s.handle == h && s.iface == segs[|segs| - 1]
    && (Front(segs) != "" && Front(segs) != ctx.moduleName ==> s.ifaceNamespace == Front(segs))
    && (Front(segs) == "" || Front(segs) == ctx.moduleName ==>
          s.ifaceNamespace == if s.iface in ctx.localNames || s.iface !in ctx.owners then "" else ctx.owners[s.iface])
  }

  lemma PendingWordReads(ctx: Context, w: string, h: HandleKind, toks: seq<Token>)
    requires PendingKeyword(w) == Some(h) && w !in {"string", "array", "map", "hash_map", "handle", "associated"}
    ensures ParseInner(ctx, [Name(w)] + toks) == ParsePending(ctx, h, toks)
  {
    hide PendingKeyword, ScalarKeyword;
    WordRest(w, toks);
  }

  /** `pending_x<Interface>`. */
  lemma PendingRule(ctx: Context, w: string, toks: seq<Token>, segs: seq<string>, rest: seq<Token>)
    requires w in {"pending_remote", "pending_receiver", "pending_associated_remote", "pending_associated_receiver"}
    requires NameReads(toks, segs, [Punct('>')] + rest) && NoMark(rest)
    ensures var r := ParseType(ctx, [Name(w)] + ([Punct('<')] + toks));
            && r.Got? && r.rest == rest && !r.value.nullable
            && IsEndpoint(ctx, r.value.shape,
                 if w == "pending_remote" then PendingRemote
                 else if w == "pending_receiver" then PendingReceiver
                 else if w == "pending_associated_remote" then PendingAssociatedRemote
                 else PendingAssociatedReceiver, segs)
  {
    hide ParseInner, Segments, JoinDots;
    var h := if w == "pending_remote" then PendingRemote
             else if w == "pending_receiver" then PendingReceiver
             else if w == "pending_associated_remote" then PendingAssociatedRemote
             else PendingAssociatedReceiver;
    PendingWordReads(ctx, w, h, [Punct('<')] + toks);
    Bracketed(toks);
    assert ([Punct('>')] + rest)[1..] == rest;
  }

  /** `associated Interface` is a remote, and with an '&' behind it a receiver. */
  lemma AssociatedRule(ctx: Context, toks: seq<Token>, segs: seq<string>, receiver: bool, rest: seq<Token>)
    requires NameReads(toks, segs, (if receiver then [Punct('&')] else []) + rest) && NoMark(rest) && !AtPunct('&', rest)
    ensures var r := ParseType(ctx, [Name("associated")] + toks);
            && r.Got? && r.rest == rest && !r.value.nullable
            && IsEndpoint(ctx, r.value.shape,
                 if receiver then PendingAssociatedReceiver else PendingAssociatedRemote, segs)
  {
    hide Segments, JoinDots, ParseInner;
    AssociatedWord(ctx, toks);
    assert ([Punct('&')] + rest)[1..] == rest && [] + rest == rest;
  }

  lemma AssociatedWord(ctx: Context, toks: seq<Token>)
    ensures ParseInner(ctx, [Name("associated")] + toks) == ParseAssociated(ctx, toks)
  {
    WordRest("associated", toks);
  }

  /** A type begins with a word. */
  lemma WordNeeded(ctx: Context, toks: seq<Token>)
    requires toks == [] || !toks[0].Name?
    ensures ParseType(ctx, toks) == Error
  {
  }
}
