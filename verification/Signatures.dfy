/**
  Interned keys identify: two types share a key exactly when they are the same type by fully
  qualified name, and two methods exactly when their whole signatures agree.
 */
module Signatures {
  import opened Ast
  import opened Names
  import opened TypeKeys

  /** What can follow a type inside a longer key. */
  predicate EndsType(rest: string) {
    rest == "" || rest[0] == ',' || rest[0] == '>' || rest[0] == ')'
  }

  lemma WordIsWord(s: Shape, ns: string)
    requires s.Named? ==> IsDotted(DottedName(s, ns))
    ensures IsWord(Word(s, ns))
  {
    hide PendingKeyword, ScalarKeyword, HandleKeyword;
    match s {
      case Scalar(k) => ScalarKeywordInverse(k);
      case Handle(h, _, _) => if IsPending(h) { PendingKeywordInverse(h); }
      case _ =>
    }
  }

  lemma SpelledName(s: Shape, ns: string)
    requires s.Named? && Spelled(TypeSpec(s, false)) && IsDotted(ns)
    ensures IsDotted(DottedName(s, ns))
  {
  }

  lemma SpelledShape(t: TypeSpec)
    requires Spelled(t)
    ensures Spelled(TypeSpec(t.shape, false))
  {
  }

  /** What is left of a text after a type's shape, with its '?' if it has one. */
  function Suffix(t: TypeSpec, rest: string): string { (if t.nullable then "?" else "") + rest }

  lemma SuffixUnique(a: TypeSpec, x: string, b: TypeSpec, y: string)
    requires EndsType(x) && EndsType(y)
    ensures EndsShape(Suffix(a, x)) && EndsWord(Suffix(a, x))
    ensures Suffix(a, x) == Suffix(b, y) ==> a.nullable == b.nullable && x == y
  {
    Strip("?", x, y);
    assert a.nullable ==> Suffix(a, x)[0] == '?';
    assert b.nullable ==> Suffix(b, y)[0] == '?';
    assert !a.nullable ==> Suffix(a, x) == x;
    assert !b.nullable ==> Suffix(b, y) == y;
  }

  /**
    Nothing more than the key is needed to tell where it ends and what it says: keys standing at
    the front of the same text are the same key of the same type.
   */
  lemma {:induction false} KeyUnique(a: TypeSpec, na: string, x: string, b: TypeSpec, nb: string, y: string)
    requires Spelled(a) && Spelled(b) && IsDotted(na) && IsDotted(nb) && EndsType(x) && EndsType(y)
    requires TypeKey(a, na) + x == TypeKey(b, nb) + y
    ensures Qualified(a, na) == Qualified(b, nb) && x == y
    decreases a, 2
  {
    hide Word, Tail, Classify, Spelled, HeadOf, EndsShape;
    SpelledShape(a);
    SpelledShape(b);
    if a.shape.Named? { SpelledName(a.shape, na); }
    if b.shape.Named? { SpelledName(b.shape, nb); }
    WordIsWord(a.shape, na);
    WordIsWord(b.shape, nb);
    ClassifyWord(a.shape, na);
    ClassifyWord(b.shape, nb);
    var qa, qb := Suffix(a, x), Suffix(b, y);
    var wa, wb, ta, tb := Word(a.shape, na), Word(b.shape, nb), Tail(a.shape, na), Tail(b.shape, nb);
    assert TypeKey(a, na) + x == wa + (ta + qa);
    assert TypeKey(b, nb) + y == wb + (tb + qb);
    SuffixUnique(a, x, b, y);
    SuffixUnique(b, y, a, x);
    TailStart(a.shape, na, qa);
    TailStart(b.shape, nb, qb);
    WordSplit(wa, ta + qa, wb, tb + qb);
    TailUnique(a.shape, na, qa, b.shape, nb, qb);
    QualifiedShape(a, na);
    QualifiedShape(b, nb);
  }

  lemma QualifiedShape(t: TypeSpec, ns: string)
    ensures Qualified(t, ns) == TypeSpec(Qualified(TypeSpec(t.shape, false), ns).shape, t.nullable)
  {
  }

  lemma TailStart(s: Shape, ns: string, rest: string)
    requires EndsWord(rest)
    ensures Tail(s, ns) == "" || Tail(s, ns)[0] == '<'
    ensures EndsWord(Tail(s, ns) + rest)
  {
  }

  /** A '?' or the end of the type. */
  predicate EndsShape(rest: string) {
    EndsType(rest) || rest[0] == '?'
  }

  lemma {:induction false} TailUnique(a: Shape, na: string, x: string, b: Shape, nb: string, y: string)
    requires Spelled(TypeSpec(a, false)) && Spelled(TypeSpec(b, false)) && IsDotted(na) && IsDotted(nb)
    requires HeadOf(a, na) == HeadOf(b, nb) && EndsShape(x) && EndsShape(y)
    requires Tail(a, na) + x == Tail(b, nb) + y
    ensures Qualified(TypeSpec(a, false), na).shape == Qualified(TypeSpec(b, false), nb).shape && x == y
    decreases a, 1
  {
    hide TypeKey, Word;
    match a {
      case Scalar(_) => assert Tail(a, na) + x == x && Tail(b, nb) + y == y;
      case String => assert Tail(a, na) + x == x && Tail(b, nb) + y == y;
      case Named(_, _, _, _) => assert Tail(a, na) + x == x && Tail(b, nb) + y == y;
      case Array(_, _) => ArrayTailUnique(a, na, x, b, nb, y);
      case Map(_, _) => MapTailUnique(a, na, x, b, nb, y);
      case Handle(_, _, _) => HandleTailUnique(a, na, x, b, nb, y);
    }
  }

  lemma {:induction false} ArrayTailUnique(a: Shape, na: string, x: string, b: Shape, nb: string, y: string)
    requires a.Array? && b.Array?
    requires Spelled(a.element) && Spelled(b.element) && IsDotted(na) && IsDotted(nb)
    requires EndsShape(x) && EndsShape(y) && Tail(a, na) + x == Tail(b, nb) + y
    ensures Qualified(a.element, na) == Qualified(b.element, nb) && a.fixedSize == b.fixedSize && x == y
    decreases a, 0
  {
    hide TypeKey, Qualified, Spelled, Decimal;
    var sa := (if a.fixedSize > 0 then "," + Decimal(a.fixedSize) else "") + ">" + x;
    var sb := (if b.fixedSize > 0 then "," + Decimal(b.fixedSize) else "") + ">" + y;
    assert Tail(a, na) + x == "<" + (TypeKey(a.element, na) + sa);
    assert Tail(b, nb) + y == "<" + (TypeKey(b.element, nb) + sb);
    Strip("<", TypeKey(a.element, na) + sa, TypeKey(b.element, nb) + sb);
    KeyUnique(a.element, na, sa, b.element, nb, sb);
    assert sa[0] == (if a.fixedSize > 0 then ',' else '>') && sb[0] == (if b.fixedSize > 0 then ',' else '>');
    if a.fixedSize > 0 {
      assert sa == "," + (Decimal(a.fixedSize) + (">" + x)) && sb == "," + (Decimal(b.fixedSize) + (">" + y));
      Strip(",", Decimal(a.fixedSize) + (">" + x), Decimal(b.fixedSize) + (">" + y));
      WordSplit(Decimal(a.fixedSize), ">" + x, Decimal(b.fixedSize), ">" + y);
      DecimalInverse(a.fixedSize);
      DecimalInverse(b.fixedSize);
      Strip(">", x, y);
    } else {
      assert sa == ">" + x && sb == ">" + y;
      Strip(">", x, y);
    }
  }

  lemma {:induction false} MapTailUnique(a: Shape, na: string, x: string, b: Shape, nb: string, y: string)
    requires a.Map? && b.Map?
    requires Spelled(a.key) && Spelled(b.key) && Spelled(a.value) && Spelled(b.value) && IsDotted(na) && IsDotted(nb)
    requires EndsShape(x) && EndsShape(y) && Tail(a, na) + x == Tail(b, nb) + y
    ensures Qualified(a.key, na) == Qualified(b.key, nb) && Qualified(a.value, na) == Qualified(b.value, nb) && x == y
    decreases a, 0
  {
    hide TypeKey, Qualified, Spelled;
    var va, vb := TypeKey(a.value, na) + (">" + x), TypeKey(b.value, nb) + (">" + y);
    assert Tail(a, na) + x == "<" + (TypeKey(a.key, na) + ("," + va));
    assert Tail(b, nb) + y == "<" + (TypeKey(b.key, nb) + ("," + vb));
    Strip("<", TypeKey(a.key, na) + ("," + va), TypeKey(b.key, nb) + ("," + vb));
    KeyUnique(a.key, na, "," + va, b.key, nb, "," + vb);
    Strip(",", va, vb);
    KeyUnique(a.value, na, ">" + x, b.value, nb, ">" + y);
    Strip(">", x, y);
  }

  lemma HandleTailUnique(a: Shape, na: string, x: string, b: Shape, nb: string, y: string)
    requires a.Handle? && b.Handle? && HeadOf(a, na) == HeadOf(b, nb)
    requires Spelled(TypeSpec(a, false)) && Spelled(TypeSpec(b, false)) && IsDotted(na) && IsDotted(nb)
    requires EndsShape(x) && EndsShape(y) && Tail(a, na) + x == Tail(b, nb) + y
    ensures Qualified(TypeSpec(a, false), na).shape == Qualified(TypeSpec(b, false), nb).shape && x == y
  {
    hide HandleKeyword, PendingKeyword;
    if IsPending(a.handle) {
      var qa, qb := QualName(OwnerOr(a.ifaceNamespace, na), a.iface), QualName(OwnerOr(b.ifaceNamespace, nb), b.iface);
      BracketUnique(qa, x, qb, y);
    } else {
      var ha, hb := HandleSubtype(a.handle), HandleSubtype(b.handle);
      assert ha != "" ==> (Tail(a, na) + x)[0] == '<';
      assert hb != "" ==> (Tail(b, nb) + y)[0] == '<';
      assert ha == "" ==> Tail(a, na) + x == x;
      assert hb == "" ==> Tail(b, nb) + y == y;
      if ha != "" { HandleKeywordInverse(a.handle); }
      if hb != "" { HandleKeywordInverse(b.handle); }
      if ha != "" && hb != "" {
        BracketUnique(ha, x, hb, y);
      }
    }
  }

  lemma BracketUnique(p: string, x: string, q: string, y: string)
    requires IsWord(p) && IsWord(q) && "<" + p + ">" + x == "<" + q + ">" + y
    ensures p == q && x == y
  {
    assert "<" + p + ">" + x == "<" + (p + (">" + x)) && "<" + q + ">" + y == "<" + (q + (">" + y));
    Strip("<", p + (">" + x), q + (">" + y));
    WordSplit(p, ">" + x, q, ">" + y);
    Strip(">", x, y);
  }

  lemma Strip(p: string, x: string, y: string)
    ensures p + x == p + y ==> x == y
  {
    assert (p + x)[|p|..] == x && (p + y)[|p|..] == y;
  }

  /** The key depends on nothing but the qualified type. */
  lemma {:induction false} KeyOfQualified(t: TypeSpec, ns: string)
    requires Spelled(t)
    ensures TypeKey(Qualified(t, ns), "") == TypeKey(t, ns)
  {
    match t.shape {
      case Array(element, _) => KeyOfQualified(element, ns);
      case Map(key, value) => KeyOfQualified(key, ns); KeyOfQualified(value, ns);
      case _ =>
    }
  }

  lemma TypeKeyIdentity(a: TypeSpec, na: string, b: TypeSpec, nb: string)
    requires Spelled(a) && Spelled(b) && IsDotted(na) && IsDotted(nb)
    ensures TypeKey(a, na) == TypeKey(b, nb) <==> Qualified(a, na) == Qualified(b, nb)
  {
    KeyOfQualified(a, na);
    KeyOfQualified(b, nb);
    if TypeKey(a, na) == TypeKey(b, nb) {
      KeyUnique(a, na, "", b, nb, "");
    }
  }

  /**
    Only an enum shows what it is nested in: references to one name of one owner share a key
    whatever their containers, unless they are enums.
   */
  lemma ContainerInKey(kind: NamedKind, name: string, owner: string, c: string, d: string, ns: string)
    requires IsDotted(name) && IsDotted(owner) && IsDotted(ns) && IsDotted(c) && IsDotted(d)
    ensures var a, b := TypeSpec(Named(kind, name, owner, c), false), TypeSpec(Named(kind, name, owner, d), false);
            TypeKey(a, ns) == TypeKey(b, ns) <==> !kind.EnumRef? || c == d
  {
    var a, b := Named(kind, name, owner, c), Named(kind, name, owner, d);
    TypeKeyIdentity(TypeSpec(a, false), ns, TypeSpec(b, false), ns);
    if kind.EnumRef? {
      var q := OwnerOr(owner, ns);
      var front := if q == "" then "" else q + ".";
      var m, n := if c == "" then name else c + "." + name, if d == "" then name else d + "." + name;
      assert DottedName(a, ns) == front + m && DottedName(b, ns) == front + n;
      Strip(front, m, n);
      BackSplit(c, d, name);
    }
  }

  lemma BackSplit(c: string, d: string, name: string)
    ensures (if c == "" then name else c + "." + name) == (if d == "" then name else d + "." + name) <==> c == d
  {
    if c != "" && d != "" && c + "." + name == d + "." + name {
      assert |c| == |d|;
      assert (c + "." + name)[..|c|] == c && (d + "." + name)[..|d|] == d;
    }
  }

  // ----- parameter lists -----

  lemma KeyNotEmpty(t: TypeSpec, ns: string, rest: string)
    requires Spelled(t) && IsDotted(ns)
    ensures TypeKey(t, ns) != "" && (TypeKey(t, ns) + rest)[0] != ')'
  {
    if t.shape.Named? { SpelledName(t.shape, ns); }
    WordIsWord(t.shape, ns);
    assert Word(t.shape, ns) != "";
    assert (TypeKey(t, ns) + rest)[0] == Word(t.shape, ns)[0];
  }

  lemma JoinSplit(ts: seq<TypeSpec>, ns: string, rest: string)
    requires ts != []
    ensures JoinKeys(ts, ns) + rest ==
            TypeKey(ts[0], ns) + ((if |ts| == 1 then "" else "," + JoinKeys(ts[1..], ns)) + rest)
  {
    hide TypeKey;
  }

  lemma {:induction false} JoinUnique(a: seq<TypeSpec>, na: string, x: string, b: seq<TypeSpec>, nb: string, y: string)
    requires AllSpelled(a) && AllSpelled(b) && IsDotted(na) && IsDotted(nb)
    requires x != "" && x[0] == ')' && y != "" && y[0] == ')'
    requires JoinKeys(a, na) + x == JoinKeys(b, nb) + y
    ensures QualifiedAll(a, na) == QualifiedAll(b, nb) && x == y
  {
    hide TypeKey, Qualified, Spelled;
    if a != [] { KeyNotEmpty(a[0], na, (if |a| == 1 then "" else "," + JoinKeys(a[1..], na)) + x); JoinSplit(a, na, x); }
    if b != [] { KeyNotEmpty(b[0], nb, (if |b| == 1 then "" else "," + JoinKeys(b[1..], nb)) + y); JoinSplit(b, nb, y); }
    assert a == [] ==> JoinKeys(a, na) + x == x;
    assert b == [] ==> JoinKeys(b, nb) + y == y;
    if a != [] && b != [] {
      var ra, rb := (if |a| == 1 then "" else "," + JoinKeys(a[1..], na)) + x, (if |b| == 1 then "" else "," + JoinKeys(b[1..], nb)) + y;
      KeyUnique(a[0], na, ra, b[0], nb, rb);
      assert ra[0] == (if |a| == 1 then ')' else ',') && rb[0] == (if |b| == 1 then ')' else ',');
      if |a| == 1 {
        assert ra == x && rb == y && a[1..] == [] && b[1..] == [];
      } else {
        assert ra == "," + (JoinKeys(a[1..], na) + x) && rb == "," + (JoinKeys(b[1..], nb) + y);
        Strip(",", JoinKeys(a[1..], na) + x, JoinKeys(b[1..], nb) + y);
        JoinUnique(a[1..], na, x, b[1..], nb, y);
      }
    }
  }

  lemma {:induction false} JoinOfQualified(a: seq<TypeSpec>, na: string, b: seq<TypeSpec>, nb: string)
    requires AllSpelled(a) && AllSpelled(b) && QualifiedAll(a, na) == QualifiedAll(b, nb)
    ensures JoinKeys(a, na) == JoinKeys(b, nb)
  {
    hide TypeKey, Qualified, Spelled;
    QualifiedCount(a, na);
    QualifiedCount(b, nb);
    if a != [] {
      assert QualifiedAll(a, na)[0] == Qualified(a[0], na) && QualifiedAll(b, nb)[0] == Qualified(b[0], nb);
      assert QualifiedAll(a, na)[1..] == QualifiedAll(a[1..], na) && QualifiedAll(b, nb)[1..] == QualifiedAll(b[1..], nb);
      KeyOfQualified(a[0], na);
      KeyOfQualified(b[0], nb);
      JoinOfQualified(a[1..], na, b[1..], nb);
    }
  }

  lemma {:induction false} QualifiedCount(ts: seq<TypeSpec>, ns: string)
    ensures |QualifiedAll(ts, ns)| == |ts|
  {
    if ts != [] { QualifiedCount(ts[1..], ns); }
  }

  // ----- methods -----

  /** Every name in the method is well spelled, and its own name has no dot. */
  predicate SpelledMethod(m: Method) {
    && (forall i :: 0 <= i < |m.name| ==> IsNameCont(m.name[i]))
    && AllSpelled(ParamTypes(m.params))
    && (m.response.Plain? ==> AllSpelled(ParamTypes(m.response.params)))
    && (m.response.Result? ==> Spelled(m.response.success) && Spelled(m.response.error))
  }

  /** Same qualified interface, name, parameter types, and kind and types of response. */
  predicate SameSignature(na: string, ia: string, a: Method, nb: string, ib: string, b: Method) {
    && QualName(na, ia) == QualName(nb, ib) && a.name == b.name
    && QualifiedAll(ParamTypes(a.params), na) == QualifiedAll(ParamTypes(b.params), nb)
    && QualifiedResponse(a.response, na) == QualifiedResponse(b.response, nb)
  }

  lemma ResponseUnique(a: Response, na: string, b: Response, nb: string)
    requires a.Plain? ==> AllSpelled(ParamTypes(a.params))
    requires a.Result? ==> Spelled(a.success) && Spelled(a.error)
    requires b.Plain? ==> AllSpelled(ParamTypes(b.params))
    requires b.Result? ==> Spelled(b.success) && Spelled(b.error)
    requires IsDotted(na) && IsDotted(nb)
    requires ")" + ResponseKey(a, na) == ")" + ResponseKey(b, nb)
    ensures QualifiedResponse(a, na) == QualifiedResponse(b, nb)
  {
    hide TypeKey, Qualified, Spelled, JoinKeys;
    Strip(")", ResponseKey(a, na), ResponseKey(b, nb));
    var ka, kb := ResponseKey(a, na), ResponseKey(b, nb);
    assert !a.NoResponse? ==> |ka| > 2 && ka[2] == (if a.Plain? then '(' else 'r');
    assert !b.NoResponse? ==> |kb| > 2 && kb[2] == (if b.Plain? then '(' else 'r');
    if a.Plain? {
      var ja, jb := JoinKeys(ParamTypes(a.params), na), JoinKeys(ParamTypes(b.params), nb);
      assert ka == "->(" + (ja + ")") && kb == "->(" + (jb + ")");
      Strip("->(", ja + ")", jb + ")");
      JoinUnique(ParamTypes(a.params), na, ")", ParamTypes(b.params), nb, ")");
    } else if a.Result? {
      var ea, eb := TypeKey(a.error, na), TypeKey(b.error, nb);
      assert ka == "->result<" + (TypeKey(a.success, na) + ("," + (ea + ">")));
      assert kb == "->result<" + (TypeKey(b.success, nb) + ("," + (eb + ">")));
      Strip("->result<", TypeKey(a.success, na) + ("," + (ea + ">")), TypeKey(b.success, nb) + ("," + (eb + ">")));
      KeyUnique(a.success, na, "," + (ea + ">"), b.success, nb, "," + (eb + ">"));
      Strip(",", ea + ">", eb + ">");
      KeyUnique(a.error, na, ">", b.error, nb, ">");
    }
  }

  lemma ResponseOfQualified(a: Response, na: string, b: Response, nb: string)
    requires a.Plain? ==> AllSpelled(ParamTypes(a.params))
    requires a.Result? ==> Spelled(a.success) && Spelled(a.error)
    requires b.Plain? ==> AllSpelled(ParamTypes(b.params))
    requires b.Result? ==> Spelled(b.success) && Spelled(b.error)
    requires QualifiedResponse(a, na) == QualifiedResponse(b, nb)
    ensures ResponseKey(a, na) == ResponseKey(b, nb)
  {
    hide TypeKey, Qualified, Spelled, JoinKeys, QualifiedAll;
    if a.Plain? {
      JoinOfQualified(ParamTypes(a.params), na, ParamTypes(b.params), nb);
    } else if a.Result? {
      KeyOfQualified(a.success, na);
      KeyOfQualified(b.success, nb);
      KeyOfQualified(a.error, na);
      KeyOfQualified(b.error, nb);
    }
  }

  /** Cutting a method key after its name: both parts are determined by the text. */
  lemma MethodHeadUnique(p: string, m: string, x: string, q: string, n: string, y: string)
    requires IsDotted(p) && IsDotted(q)
    requires forall i :: 0 <= i < |m| ==> IsNameCont(m[i])
    requires forall i :: 0 <= i < |n| ==> IsNameCont(n[i])
    requires "func " + p + "." + m + ("(" + x) == "func " + q + "." + n + ("(" + y)
    ensures p == q && m == n && x == y
  {
    assert "func " + p + "." + m + ("(" + x) == "func " + ((p + "." + m) + ("(" + x));
    assert "func " + q + "." + n + ("(" + y) == "func " + ((q + "." + n) + ("(" + y));
    Strip("func ", (p + "." + m) + ("(" + x), (q + "." + n) + ("(" + y));
    WordSplit(p + "." + m, "(" + x, q + "." + n, "(" + y);
    LastDotSplit(p, m, q, n);
    Strip("(", x, y);
  }

  /** Two methods share a key exactly when they have the same signature. */
  lemma MethodKeyIdentity(na: string, ia: string, a: Method, nb: string, ib: string, b: Method)
    requires IsDotted(na) && IsDotted(nb) && IsDotted(ia) && IsDotted(ib)
    requires SpelledMethod(a) && SpelledMethod(b)
    ensures MethodKey(na, ia, a) == MethodKey(nb, ib, b) <==> SameSignature(na, ia, a, nb, ib, b)
  {
    hide JoinKeys, ResponseKey, QualifiedAll, QualifiedResponse, Spelled;
    var pa, pb := JoinKeys(ParamTypes(a.params), na), JoinKeys(ParamTypes(b.params), nb);
    var xa, xb := ")" + ResponseKey(a.response, na), ")" + ResponseKey(b.response, nb);
    assert MethodKey(na, ia, a) == "func " + QualName(na, ia) + "." + a.name + ("(" + (pa + xa));
    assert MethodKey(nb, ib, b) == "func " + QualName(nb, ib) + "." + b.name + ("(" + (pb + xb));
    if MethodKey(na, ia, a) == MethodKey(nb, ib, b) {
      MethodHeadUnique(QualName(na, ia), a.name, pa + xa, QualName(nb, ib), b.name, pb + xb);
      JoinUnique(ParamTypes(a.params), na, xa, ParamTypes(b.params), nb, xb);
      ResponseUnique(a.response, na, b.response, nb);
    }
    if SameSignature(na, ia, a, nb, ib, b) {
      JoinOfQualified(ParamTypes(a.params), na, ParamTypes(b.params), nb);
      ResponseOfQualified(a.response, na, b.response, nb);
    }
  }

  // ----- the intern table -----

  predicate Inverse(byKey: map<string, nat>, keys: seq<string>) {
    && (forall k <- byKey :: 1 <= byKey[k] <= |keys| && keys[byKey[k] - 1] == k)
    && (forall i :: 0 <= i < |keys| ==> keys[i] in byKey && byKey[keys[i]] == i + 1)
  }

  lemma Grown(keys: seq<string>, byKey: map<string, nat>, key: string)
    requires Inverse(byKey, keys) && key !in byKey
    ensures Inverse(byKey[key := |keys| + 1], keys + [key])
  {
    var m, ks := byKey[key := |keys| + 1], keys + [key];
    forall k | k in m ensures 1 <= m[k] <= |ks| && ks[m[k] - 1] == k {
      if k != key { assert m[k] == byKey[k] && ks[m[k] - 1] == keys[m[k] - 1]; }
    }
    forall i | 0 <= i < |ks| ensures ks[i] in m && m[ks[i]] == i + 1 {
      if i < |keys| { assert ks[i] == keys[i] && keys[i] in byKey; }
    }
  }

  lemma Found(keys: seq<string>, byKey: map<string, nat>, key: string)
    requires Inverse(byKey, keys)
    ensures key in byKey <==> key in keys
    ensures key in byKey ==> 1 <= byKey[key] <= |keys| && keys[byKey[key] - 1] == key
  {
  }

  lemma OneIdEach(keys: seq<string>, byKey: map<string, nat>, id: nat)
    requires Inverse(byKey, keys) && 1 <= id <= |keys|
    ensures forall k :: 0 <= k < |keys| ==> (k == id - 1 <==> keys[k] == keys[id - 1])
  {
    forall k | 0 <= k < |keys| && keys[k] == keys[id - 1] ensures k == id - 1 {
      assert byKey[keys[k]] == k + 1 && byKey[keys[id - 1]] == id;
    }
  }

  class TypeIntern {
    var byKey: map<string, nat>
    var keys: seq<string>  // index = id - 1

    /** The two fields are inverse to each other. */
    predicate Valid()
      reads this
    {
      Inverse(byKey, keys)
    }

    constructor ()
      ensures Valid() && keys == []
    {
      byKey, keys := map[], [];
    }

    /** Key(id); the empty string for an id never handed out. */
    function Key(id: nat): (k: string)
      reads this
      requires Valid()
      ensures 1 <= id <= |keys| ==> k in byKey && byKey[k] == id
      ensures !(1 <= id <= |keys|) ==> k == ""
    {
      if id == 0 || id > |keys| then "" else keys[id - 1]
    }

    /**
      The key's id, new keys getting the next one. Ids already handed out keep their keys, so over
      any run two calls agree exactly when their keys do.
     */
    method InternKey(key: string) returns (id: uint32)
      requires Valid() && |keys| < 0xFFFF_FFFF
      modifies this
      ensures Valid() && 1 <= id <= |keys| && Key(id) == key
      ensures keys == if key in old(keys) then old(keys) else old(keys) + [key]
      ensures forall i :: 1 <= i <= |old(keys)| ==> Key(i) == old(Key(i)) && (i == id <==> Key(i) == key)
    {
      hide Inverse;
      Found(keys, byKey, key);
      if key in byKey {
        id := byKey[key];
      } else {
        Grown(keys, byKey, key);
        id := |keys| + 1;
        byKey := byKey[key := id];
        keys := keys + [key];
      }
      OneIdEach(keys, byKey, id);
    }

    method InternMethod(ns: string, iface: string, m: Method) returns (id: uint32)
      requires Valid() && |keys| < 0xFFFF_FFFF
      modifies this
      ensures Valid() && Key(id) == MethodKey(ns, iface, m)
      ensures old(keys) <= keys
    {
      id := InternKey(MethodKey(ns, iface, m));
    }
  }

  /** The two ids of two methods interned into one table, with anything interned before. */
  method InternTwoMethods(table: TypeIntern, na: string, ia: string, a: Method, nb: string, ib: string, b: Method)
    returns (x: uint32, y: uint32)
    requires table.Valid() && |table.keys| < 0xFFFF_FFFE
    requires IsDotted(na) && IsDotted(nb) && IsDotted(ia) && IsDotted(ib)
    requires SpelledMethod(a) && SpelledMethod(b)
    modifies table
    ensures x == y <==> SameSignature(na, ia, a, nb, ib, b)
  {
    hide MethodKey, SameSignature, SpelledMethod;
    x := table.InternKey(MethodKey(na, ia, a));
    y := table.InternKey(MethodKey(nb, ib, b));
    MethodKeyIdentity(na, ia, a, nb, ib, b);
  }
}
