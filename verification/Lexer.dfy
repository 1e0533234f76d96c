/**
  The tokenizer: what it makes of a text, and the loop that does it.
 */
module Lexer {
  import opened Names
  import opened Wrappers

  /** A single-character token is named by its character. */
  datatype Token =
    | Name(text: string)
    | Number(text: string)
    | HexNumber(text: string)
    | FloatNumber(text: string)
    | Text(value: string)
    | Punct(c: char)
    | Arrow
    | End

  predicate IsSpace(c: char) { c == ' ' || '\t' <= c <= '\r' }

  predicate IsHexDigit(c: char) { IsDigit(c) || 'a' <= c <= 'f' || 'A' <= c <= 'F' }

  predicate IsPunct(c: char) {
    c in "(){}<>,;@=-?.[]&|"
  }

  predicate NotNewline(c: char) { c != '\n' }

  /** How many leading characters satisfy p. */
  function Run(src: string, p: char -> bool): (n: nat)
    ensures n <= |src|
    ensures forall i :: 0 <= i < n ==> p(src[i])
    ensures n < |src| ==> !p(src[n])
  {
    if src == "" || !p(src[0]) then 0 else 1 + Run(src[1..], p)
  }

  lemma {:induction false} RunIs(src: string, p: char -> bool, n: nat)
    requires n <= |src| && (forall i :: 0 <= i < n ==> p(src[i])) && (n < |src| ==> !p(src[n]))
    ensures Run(src, p) == n
  {
    if n > 0 { RunIs(src[1..], p, n - 1); }
  }

  /** Where a block comment that starts here ends, if it does. */
  function BlockEnd(src: string): (n: Option<nat>)
    ensures n.Some? ==> 2 <= n.value <= |src|
  {
    if |src| < 2 then None
    else if src[0] == '*' && src[1] == '/' then Some(2)
    else
      match BlockEnd(src[1..])
      case None => None
      case Some(n) => Some(n + 1)
  }

  /** What one turn of the loop does at the front of the text. */
  datatype Lexed =
    | Skip(n: nat)
    | Take(token: Token, n: nat)
    | Bad

  /** The exponent `[eE][+-]?DIGITS` at the front, or 0. */
  function ExponentRun(src: string): (n: nat)
    ensures n <= |src|
  {
    if src == "" || (src[0] != 'e' && src[0] != 'E') then 0
    else
      var j := if |src| > 1 && (src[1] == '+' || src[1] == '-') then 2 else 1;
      if Run(src[j..], IsDigit) == 0 then 0 else j + Run(src[j..], IsDigit)
  }

  /** The fraction `.DIGITS` at the front, or 0. */
  function FractionRun(src: string): (n: nat)
    ensures n <= |src|
  {
    if |src| > 1 && src[0] == '.' && IsDigit(src[1]) then 1 + Run(src[1..], IsDigit) else 0
  }

  /** A fraction and an exponent. */
  function FloatRun(src: string): (n: nat)
    ensures n <= |src|
  {
    FractionRun(src) + ExponentRun(src[FractionRun(src)..])
  }

  predicate StartsHex(src: string) {
    |src| > 1 && src[0] == '0' && (src[1] == 'x' || src[1] == 'X')
  }

  function LexHex(src: string): (r: Lexed)
    requires StartsHex(src)
    ensures !r.Skip? && (r.Take? ==> 1 <= r.n <= |src|)
  {
    var n := Run(src[2..], IsHexDigit);
    if n == 0 then Bad else Take(HexNumber(src[..2 + n]), 2 + n)
  }

  function LexNumber(src: string): (r: Lexed)
    requires src != "" && IsDigit(src[0])
    ensures !r.Skip? && (r.Take? ==> 1 <= r.n <= |src|)
  {
    var whole := Run(src, IsDigit);
    var n := whole + FloatRun(src[whole..]);
    if n > whole then Take(FloatNumber(src[..n]), n)
    else if whole > 1 && src[0] == '0' then Bad
    else Take(Number(src[..n]), n)
  }

  // ----- string literals -----

  function HexDigitValue(c: char): nat
    requires IsHexDigit(c)
  {
    if IsDigit(c) then DigitValue(c) else if 'a' <= c <= 'f' then c as int - 'a' as int + 10 else c as int - 'A' as int + 10
  }

  function HexValue(s: string): nat
    requires forall i :: 0 <= i < |s| ==> IsHexDigit(s[i])
  {
    if s == "" then 0 else 16 * HexValue(s[..|s| - 1]) + HexDigitValue(s[|s| - 1])
  }

  /** std::stol throws above this. */
  const LONG_MAX: nat := 0x7FFF_FFFF_FFFF_FFFF

  /** static_cast<char> of a character code. */
  function CharOf(code: nat): char { (code % 256) as char }

  /** The value of a literal and how much of the text it takes up. */
  datatype Literal = Literal(value: string, n: nat)

  function Longer(value: string, n: nat, r: Option<Literal>): Option<Literal> {
    match r
    case None => None
    case Some(l) => Some(Literal(value + l.value, n + l.n))
  }

  datatype Escape = Escape(c: char, n: nat)

  /** A decimal or hexadecimal escape at the front: its character and length, None if its code is too large. */
  function CodeEscape(src: string): (r: Option<Escape>)
    requires IsDecimalEscape(src) || IsHexEscape(src)
    ensures r.Some? ==> 2 <= r.value.n <= |src|
  {
    if IsDecimalEscape(src) then
      var n := Run(src[1..], IsDigit);
      var code := DecimalValue(src[1..][..n]);
      if code > LONG_MAX then None else Some(Escape(CharOf(code), 1 + n))
    else
      var n := Run(src[2..], IsHexDigit);
      var code := HexValue(src[2..][..n]);
      if code > LONG_MAX then None else Some(Escape(CharOf(code), 2 + n))
  }

  predicate IsDecimalEscape(src: string) { |src| > 1 && src[0] == '\\' && IsDigit(src[1]) }

  predicate IsHexEscape(src: string) { |src| > 2 && src[0] == '\\' && src[1] == 'x' && IsHexDigit(src[2]) }

  /** A string literal behind its opening quote, to its closing one; None if it does not end on its line. */
  function LiteralBody(src: string): (r: Option<Literal>)
    ensures r.Some? ==> 1 <= r.value.n <= |src|
    decreases |src|
  {
    if src == "" then None
    else if src[0] == '"' then Some(Literal("", 1))
    else if src[0] == '\n' then None
    else if src[0] == '\\' && |src| > 1 && (src[1] == '"' || src[1] == '\\') then
      Longer([src[1]], 2, LiteralBody(src[2..]))
    else if IsDecimalEscape(src) || IsHexEscape(src) then
      match CodeEscape(src)
      case None => None
      case Some(e) => Longer([e.c], e.n, LiteralBody(src[e.n..]))
    else Longer([src[0]], 1, LiteralBody(src[1..]))
  }

  function LexLiteral(src: string): (r: Lexed)
    requires src != "" && src[0] == '"'
    ensures !r.Skip? && (r.Take? ==> 1 <= r.n <= |src|)
  {
    match LiteralBody(src[1..])
    case None => Bad
    case Some(l) => Take(Text(l.value), 1 + l.n)
  }

  function Step(src: string): (r: Lexed)
    requires src != ""
    ensures !r.Bad? ==> 1 <= r.n <= |src|
  {
    var c := src[0];
    if IsSpace(c) then Skip(1)
    else if c == '/' && |src| > 1 && src[1] == '/' then Skip(Run(src, NotNewline))
    else if c == '/' && |src| > 1 && src[1] == '*' then
      match BlockEnd(src[2..])
      case None => Bad
      case Some(n) => Skip(2 + n)
    else if IsNameStart(c) then Take(Name(src[..Run(src, IsNameCont)]), Run(src, IsNameCont))
    else if StartsHex(src) then LexHex(src)
    else if IsDigit(c) then LexNumber(src)
    else if c == '.' && |src| > 1 && IsDigit(src[1]) then Take(FloatNumber(src[..FloatRun(src)]), FloatRun(src))
    else if c == '"' then LexLiteral(src)
    else if c == '=' && |src| > 1 && src[1] == '>' then Take(Arrow, 2)
    else if IsPunct(c) then Take(Punct(c), 1)
    else Bad
  }

  function Push(tokens: seq<Token>, r: Option<seq<Token>>): Option<seq<Token>> {
    match r
    case None => None
    case Some(more) => Some(tokens + more)
  }

  /** The tokens of a text, ending in `End`; None where the lexer throws. */
  function Lex(src: string): Option<seq<Token>>
    decreases |src|
  {
    if src == "" then Some([End])
    else
      match Step(src)
      case Bad => None
      case Skip(n) => Lex(src[n..])
      case Take(token, n) => Push([token], Lex(src[n..]))
  }

  // ----- the loop -----

  /** `while (i < n && p(src[i])) ++i;` */
  method ScanRun(src: string, start: nat, p: char -> bool) returns (i: nat)
    requires start <= |src|
    ensures i == start + Run(src[start..], p) <= |src|
  {
    i := start;
    while i < |src| && p(src[i])
      invariant start <= i <= |src| && forall k :: start <= k < i ==> p(src[k])
    {
      i := i + 1;
    }
    RunIs(src[start..], p, i - start);
  }

  lemma Slices(src: string, start: nat, k: nat)
    requires start + k <= |src|
    ensures src[start..][k..] == src[start + k..]
    ensures src[start..][..k] == src[start..start + k]
  {
  }

  /** Moves past an exponent, if there is one. */
  method ScanExponent(src: string, start: nat) returns (i: nat)
    requires start <= |src|
    ensures i == start + ExponentRun(src[start..]) <= |src|
  {
    hide Run;
    i := start;
    if i < |src| && (src[i] == 'e' || src[i] == 'E') {
      var j := i + 1;
      if j < |src| && (src[j] == '+' || src[j] == '-') { j := j + 1; }
      Slices(src, i, j - i);
      var k := ScanRun(src, j, IsDigit);
      if k > j { i := k; }
    }
  }

  /** Moves past a fraction and an exponent, if they are there. */
  method ScanFloat(src: string, start: nat) returns (i: nat)
    requires start <= |src|
    ensures i == start + FloatRun(src[start..]) <= |src|
  {
    hide Run, ExponentRun;
    i := start;
    if i + 1 < |src| && src[i] == '.' && IsDigit(src[i + 1]) {
      Slices(src, start, 1);
      i := ScanRun(src, i + 1, IsDigit);
    }
    assert i == start + FractionRun(src[start..]);
    Slices(src, start, i - start);
    i := ScanExponent(src, i);
  }

  method ScanHex(src: string, start: nat) returns (r: Lexed)
    requires start <= |src| && StartsHex(src[start..])
    ensures r == LexHex(src[start..])
  {
    hide Run;
    Slices(src, start, 2);
    var i := ScanRun(src, start + 2, IsHexDigit);
    Slices(src, start, i - start);
    r := if i == start + 2 then Bad else Take(HexNumber(src[start..i]), i - start);
  }

  method ScanNumber(src: string, start: nat) returns (r: Lexed)
    requires start < |src| && IsDigit(src[start])
    ensures r == LexNumber(src[start..])
  {
    hide Run, FloatRun;
    var i := ScanRun(src, start, IsDigit);
    var whole := i - start;
    Slices(src, start, whole);
    i := ScanFloat(src, i);
    Slices(src, start, i - start);
    if i - start > whole { return Take(FloatNumber(src[start..i]), i - start); }
    if whole > 1 && src[start] == '0' { return Bad; }
    return Take(Number(src[start..i]), i - start);
  }

  /** Skips a block comment's body; false when it never ends. */
  method ScanBlock(src: string, start: nat) returns (ok: bool, i: nat)
    requires start <= |src|
    ensures ok <==> BlockEnd(src[start..]).Some?
    ensures ok ==> i == start + BlockEnd(src[start..]).value <= |src|
  {
    i := start;
    while i + 1 < |src| && !(src[i] == '*' && src[i + 1] == '/')
      invariant start <= i <= |src|
      invariant BlockEnd(src[start..]) ==
        match BlockEnd(src[i..]) case None => None case Some(n) => Some(n + (i - start))
    {
      assert src[i..][1..] == src[i + 1..];
      i := i + 1;
    }
    ok := i + 1 < |src|;
    if ok { i := i + 2; }
  }

  /** The character of a numeric escape, and where it ends. */
  method ScanCode(src: string, start: nat) returns (r: Option<Escape>)
    requires start <= |src| && (IsDecimalEscape(src[start..]) || IsHexEscape(src[start..]))
    ensures r == match CodeEscape(src[start..]) case None => None case Some(e) => Some(Escape(e.c, start + e.n))
  {
    hide Run, DecimalValue, HexValue;
    Slices(src, start, 1);
    Slices(src, start, 2);
    var code;
    var i;
    if IsDigit(src[start + 1]) {
      i := ScanRun(src, start + 1, IsDigit);
      Slices(src, start + 1, i - (start + 1));
      code := DecimalValue(src[start + 1..i]);
    } else {
      i := ScanRun(src, start + 2, IsHexDigit);
      Slices(src, start + 2, i - (start + 2));
      code := HexValue(src[start + 2..i]);
    }
    r := if code > LONG_MAX then None else Some(Escape(CharOf(code), i));
  }

  lemma LongerTwice(a: string, n: nat, b: string, m: nat, r: Option<Literal>)
    ensures Longer(a, n, Longer(b, m, r)) == Longer(a + b, n + m, r)
  {
    if r.Some? { assert a + (b + r.value.value) == a + b + r.value.value; }
  }

  /** One character of a literal, and where it ends. */
  method ScanCharacter(src: string, i: nat) returns (r: Option<Escape>)
    requires i < |src| && src[i] != '"' && src[i] != '\n'
    ensures match r
            case None => LiteralBody(src[i..]) == None
            case Some(e) => i < e.n <= |src| && LiteralBody(src[i..]) == Longer([e.c], e.n - i, LiteralBody(src[e.n..]))
  {
    hide CodeEscape, LiteralBody;
    var rest := src[i..];
    assert rest[0] == src[i] && (i + 1 < |src| ==> rest[1] == src[i + 1]);
    BodyTurn(rest);
    if src[i] == '\\' && i + 1 < |src| && (src[i + 1] == '"' || src[i + 1] == '\\') {
      Slices(src, i, 2);
      r := Some(Escape(src[i + 1], i + 2));
    } else if IsDecimalEscape(rest) || IsHexEscape(rest) {
      r := ScanCode(src, i);
      if r.Some? { Slices(src, i, r.value.n - i); }
    } else {
      Slices(src, i, 1);
      r := Some(Escape(src[i], i + 1));
    }
  }

  /** The loop over a literal's characters. */
  method ScanLiteral(src: string, start: nat) returns (r: Option<Literal>)
    requires start <= |src|
    ensures r == LiteralBody(src[start..])
  {
    hide LiteralBody, Longer;
    var value, i := "", start;
    LongerNothing(LiteralBody(src[start..]));
    while i < |src| && src[i] != '"' && src[i] != '\n'
      invariant start <= i <= |src|
      invariant LiteralBody(src[start..]) == Longer(value, i - start, LiteralBody(src[i..]))
      decreases |src| - i
    {
      var next := ScanCharacter(src, i);
      if next.None? {
        LongerNone(value, i - start);
        return None;
      }
      LongerTwice(value, i - start, [next.value.c], next.value.n - i, LiteralBody(src[next.value.n..]));
      value := value + [next.value.c];
      i := next.value.n;
    }
    BodyStops(src[i..], value, i - start);
    r := if i < |src| && src[i] == '"' then Some(Literal(value, i - start + 1)) else None;
  }

  lemma LongerNothing(r: Option<Literal>)
    ensures Longer("", 0, r) == r
  {
    if r.Some? { assert "" + r.value.value == r.value.value; }
  }

  lemma LongerNone(value: string, n: nat)
    ensures Longer(value, n, None) == None
  {
  }

  lemma BodyStops(src: string, value: string, n: nat)
    requires src == "" || src[0] == '"' || src[0] == '\n'
    ensures Longer(value, n, LiteralBody(src)) ==
            if src != "" && src[0] == '"' then Some(Literal(value, n + 1)) else None
  {
    assert value + "" == value;
  }

  /** One turn of that loop. */
  lemma BodyTurn(src: string)
    requires src != "" && src[0] != '"' && src[0] != '\n'
    ensures LiteralBody(src) ==
      if src[0] == '\\' && |src| > 1 && (src[1] == '"' || src[1] == '\\') then Longer([src[1]], 2, LiteralBody(src[2..]))
      else if IsDecimalEscape(src) || IsHexEscape(src) then
        match CodeEscape(src) case None => None case Some(e) => Longer([e.c], e.n, LiteralBody(src[e.n..]))
      else Longer([src[0]], 1, LiteralBody(src[1..]))
  {
  }

  /** One turn of the tokenizer's loop. */
  method ScanOne(src: string, start: nat) returns (r: Lexed)
    requires start < |src|
    ensures r == Step(src[start..])
  {
    hide Run, LexNumber, LexHex, FloatRun, BlockEnd, LiteralBody, IsSpace, IsNameStart, IsPunct;
    var c := src[start];
    var i := start;
    Slices(src, start, 1);
    assert start + 1 < |src| ==> src[start..][1] == src[start + 1];
    if IsSpace(c) { return Skip(1); }
    if c == '/' && start + 1 < |src| && src[start + 1] == '/' {
      i := ScanRun(src, start, NotNewline);
      return Skip(i - start);
    }
    if c == '/' && start + 1 < |src| && src[start + 1] == '*' {
      var ok;
      Slices(src, start, 2);
      ok, i := ScanBlock(src, start + 2);
      if !ok { return Bad; }
      return Skip(i - start);
    }
    if IsNameStart(c) {
      i := ScanRun(src, start, IsNameCont);
      Slices(src, start, i - start);
      return Take(Name(src[start..i]), i - start);
    }
    if c == '0' && start + 1 < |src| && (src[start + 1] == 'x' || src[start + 1] == 'X') {
      r := ScanHex(src, start);
    } else if IsDigit(c) {
      r := ScanNumber(src, start);
    } else if c == '.' && start + 1 < |src| && IsDigit(src[start + 1]) {
      i := ScanFloat(src, start);
      Slices(src, start, i - start);
      r := Take(FloatNumber(src[start..i]), i - start);
    } else if c == '"' {
      var l := ScanLiteral(src, start + 1);
      r := if l.None? then Bad else Take(Text(l.value.value), 1 + l.value.n);
    } else if c == '=' && start + 1 < |src| && src[start + 1] == '>' {
      r := Take(Arrow, 2);
    } else {
      r := if IsPunct(c) then Take(Punct(c), 1) else Bad;
    }
  }

  method Tokenize(src: string) returns (tokens: Option<seq<Token>>)
    ensures tokens == Lex(src)
  {
    hide Step;
    var i := 0;
    var out: seq<Token> := [];
    assert src[0..] == src;
    PushNothing(Lex(src));
    while i < |src|
      invariant 0 <= i <= |src| && Lex(src) == Push(out, Lex(src[i..]))
    {
      var r := ScanOne(src, i);
      if r.Bad? { return None; }
      Slices(src, i, r.n);
      if r.Take? {
        PushAssoc(out, r.token, Lex(src[i + r.n..]));
        out := out + [r.token];
      }
      i := i + r.n;
    }
    assert src[i..] == "";
    tokens := Some(out + [End]);
  }

  lemma PushNothing(r: Option<seq<Token>>)
    ensures Push([], r) == r
  {
    if r.Some? { assert [] + r.value == r.value; }
  }

  lemma PushAssoc(out: seq<Token>, token: Token, r: Option<seq<Token>>)
    ensures Push(out, Push([token], r)) == Push(out + [token], r)
  {
    if r.Some? { assert out + ([token] + r.value) == out + [token] + r.value; }
  }

  // ----- pieces of text -----

  lemma LexName(w: string, rest: string)
    requires IsIdent(w) && (rest == "" || !IsNameCont(rest[0]))
    ensures Lex(w + rest) == Push([Name(w)], Lex(rest))
  {
    var src := w + rest;
    assert src[0] == w[0];
    RunIs(src, IsNameCont, |w|);
    assert src[..|w|] == w && src[|w|..] == rest;
  }

  lemma PunctOnly(c: char)
    requires c in "<>,?."
    ensures IsPunct(c) && !IsSpace(c) && !IsNameStart(c) && !IsDigit(c) && c !in {'/', '"', '=', '0'}
  {
    assert c == '<' || c == '>' || c == ',' || c == '?' || c == '.';
  }

  lemma StepPunct(src: string)
    requires src != "" && src[0] in "<>,?." && (src[0] == '.' ==> |src| == 1 || !IsDigit(src[1]))
    ensures Step(src) == Take(Punct(src[0]), 1)
  {
    hide Run, BlockEnd, LexNumber, LexHex, FloatRun, LexLiteral, IsPunct, IsSpace, IsNameStart, IsDigit;
    PunctOnly(src[0]);
  }

  lemma LexPunct(c: char, rest: string)
    requires c in "<>,?." && (c == '.' ==> rest == "" || !IsDigit(rest[0]))
    ensures Lex([c] + rest) == Push([Punct(c)], Lex(rest))
  {
    hide Step;
    var src := [c] + rest;
    assert src[0] == c && src[1..] == rest && (rest != "" ==> src[1] == rest[0]);
    StepPunct(src);
  }

  lemma LexDecimal(n: nat, rest: string)
    requires rest != "" && rest[0] == '>'
    ensures Lex(Decimal(n) + rest) == Push([Number(Decimal(n))], Lex(rest))
  {
    var w := Decimal(n);
    var src := w + rest;
    assert src[0] == w[0];
    assert |w| > 1 ==> src[1] == w[1] && IsDigit(w[1]);
    assert |w| == 1 ==> src[1] == '>';
    RunIs(src, IsDigit, |w|);
    assert src[|w|] == '>' && src[..|w|] == w && src[|w|..] == rest;
    assert FloatRun(rest) == 0;
    assert Step(src) == Take(Number(w), |w|);
  }

  // ----- quoting -----

  /** A text with its quotes and backslashes escaped. */
  function Escaped(w: string): string {
    if w == "" then ""
    else (if w[0] == '"' || w[0] == '\\' then ['\\', w[0]] else [w[0]]) + Escaped(w[1..])
  }

  lemma {:induction false} EscapedBody(w: string, rest: string)
    requires '\n' !in w
    ensures LiteralBody(Escaped(w) + "\"" + rest) == Some(Literal(w, |Escaped(w)| + 1))
  {
    hide CodeEscape, LiteralBody;
    var src := Escaped(w) + "\"" + rest;
    if w == "" {
      assert src[0] == '"';
      BodyStops(src, "", 0);
      LongerNothing(LiteralBody(src));
    } else {
      EscapedBody(w[1..], rest);
      var n := if w[0] == '"' || w[0] == '\\' then 2 else 1;
      assert w[0] in w;
      assert src[n..] == Escaped(w[1..]) + "\"" + rest;
      assert w == [w[0]] + w[1..];
      BodyTurn(src);
    }
  }

  /** Any text on one line is the value of the literal that quotes it. */
  lemma LexQuoted(w: string, rest: string)
    requires '\n' !in w
    ensures Lex("\"" + Escaped(w) + "\"" + rest) == Push([Text(w)], Lex(rest))
  {
    hide LiteralBody, Escaped, Run, FloatRun;
    var src := "\"" + Escaped(w) + "\"" + rest;
    EscapedBody(w, rest);
    assert src[1..] == Escaped(w) + "\"" + rest;
    assert src[0] == '"' && src[|Escaped(w)| + 2..] == rest;
    assert Step(src) == Take(Text(w), |Escaped(w)| + 2);
  }
}
