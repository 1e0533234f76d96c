/**
  What each piece of source text is taken for, said by the characters.
 */
module LexicalRules {
  import opened Names
  import opened Lexer
  import opened Wrappers

  predicate IsLetter(c: char) { 'a' <= c <= 'z' || 'A' <= c <= 'Z' }

  predicate IsNumeral(c: char) { '0' <= c <= '9' }

  predicate IsHexadecimal(c: char) { IsNumeral(c) || 'a' <= c <= 'f' || 'A' <= c <= 'F' }

  predicate IsInName(c: char) { IsLetter(c) || IsNumeral(c) || c == '_' }

  predicate NoDigits(rest: string) { rest == "" || !IsNumeral(rest[0]) }

  /** A point and a digit. */
  predicate FractionAhead(rest: string) { |rest| > 1 && rest[0] == '.' && IsNumeral(rest[1]) }

  /** An 'e', a sign or none, and a digit. */
  predicate ExponentAhead(rest: string) {
    && |rest| > 1 && (rest[0] == 'e' || rest[0] == 'E')
    && (IsNumeral(rest[1]) || (|rest| > 2 && (rest[1] == '+' || rest[1] == '-') && IsNumeral(rest[2])))
  }

  // ----- names and space -----

  /** Letters, digits and underscores, not beginning with a digit, are one name. */
  lemma NameRule(w: string, rest: string)
    requires w != "" && !IsNumeral(w[0]) && (rest == "" || !IsInName(rest[0]))
    requires forall i :: 0 <= i < |w| ==> IsInName(w[i])
    ensures Lex(w + rest) == Push([Name(w)], Lex(rest))
  {
    LexName(w, rest);
  }

  /** White space separates. */
  lemma SpaceRule(c: char, rest: string)
    requires c == ' ' || c == '\t' || c == '\n' || c == '\r' || c as int == 11 || c as int == 12
    ensures Lex([c] + rest) == Lex(rest)
  {
    hide Run, BlockEnd;
    var src := [c] + rest;
    assert src[1..] == rest;
    assert Step(src) == Skip(1);
  }

  // ----- comments -----

  /** A comment runs to the end of its line. */
  lemma LineCommentRule(text: string, rest: string)
    requires '\n' !in text && (rest == "" || rest[0] == '\n')
    ensures Lex("//" + text + rest) == Lex(rest)
  {
    hide BlockEnd;
    var src := "//" + text + rest;
    var n := 2 + |text|;
    assert forall i :: 0 <= i < n ==> src[i] != '\n' by {
      assert forall i :: 2 <= i < n ==> src[i] == text[i - 2];
    }
    RunIs(src, NotNewline, n);
    assert src[n..] == rest && src[0] == '/' && src[1] == '/';
    assert Step(src) == Skip(n);
  }

  /** The first end of a block comment is at n. */
  predicate EndsAt(s: string, n: nat) {
    && n + 2 <= |s| && s[n] == '*' && s[n + 1] == '/'
    && forall i :: 0 <= i < n ==> !(s[i] == '*' && s[i + 1] == '/')
  }

  lemma {:induction false} BlockEndIs(s: string, n: nat)
    requires EndsAt(s, n)
    ensures BlockEnd(s) == Some(n + 2)
  {
    if n > 0 {
      assert EndsAt(s[1..], n - 1);
      BlockEndIs(s[1..], n - 1);
    }
  }

  lemma {:induction false} NoBlockEnd(s: string)
    requires forall i :: 0 <= i < |s| - 1 ==> !(s[i] == '*' && s[i + 1] == '/')
    ensures BlockEnd(s) == None
  {
    if |s| >= 2 {
      assert !(s[0] == '*' && s[0 + 1] == '/');
      forall i | 0 <= i < |s[1..]| - 1 ensures !(s[1..][i] == '*' && s[1..][i + 1] == '/') {
        assert !(s[i + 1] == '*' && s[i + 1 + 1] == '/');
      }
      NoBlockEnd(s[1..]);
    }
  }

  lemma CommentStep(src: string)
    requires |src| >= 2 && src[0] == '/' && src[1] == '*'
    ensures Step(src) == match BlockEnd(src[2..]) case None => Bad case Some(n) => Skip(2 + n)
  {
    hide BlockEnd, Run, LexNumber, LexHex, FloatRun, LexLiteral, IsPunct;
  }

  /** A block comment runs to its first end. */
  lemma BlockCommentRule(text: string, n: nat)
    requires EndsAt(text, n)
    ensures Lex("/*" + text) == Lex(text[n + 2..])
  {
    hide BlockEnd, Step;
    var src := "/*" + text;
    assert src[2..] == text && src[0] == '/' && src[1] == '*';
    CommentStep(src);
    BlockEndIs(text, n);
    assert src[2 + (n + 2)..] == text[n + 2..];
  }

  /** One without an end is an error. */
  lemma OpenCommentRule(text: string)
    requires forall i :: 0 <= i < |text| - 1 ==> !(text[i] == '*' && text[i + 1] == '/')
    ensures Lex("/*" + text) == None
  {
    hide BlockEnd, Step;
    var src := "/*" + text;
    assert src[2..] == text && src[0] == '/' && src[1] == '*';
    CommentStep(src);
    NoBlockEnd(text);
  }

  // ----- punctuation -----

  /** The single characters that are tokens; a '.' in front of a digit and a '=' in front of a '>' are not. */
  lemma PunctuationRule(c: char, rest: string)
    requires c in {'(', ')', '{', '}', '<', '>', ',', ';', '@', '=', '-', '?', '.', '[', ']', '&', '|'}
    requires c == '.' ==> rest == "" || !IsNumeral(rest[0])
    requires c == '=' ==> rest == "" || rest[0] != '>'
    ensures Lex([c] + rest) == Push([Punct(c)], Lex(rest))
  {
    hide Step;
    var src := [c] + rest;
    assert src[1..] == rest;
    PunctuationStep(src);
  }

  lemma PunctuationStep(src: string)
    requires src != "" && src[0] in {'(', ')', '{', '}', '<', '>', ',', ';', '@', '=', '-', '?', '.', '[', ']', '&', '|'}
    requires src[0] == '.' ==> |src| == 1 || !IsNumeral(src[1])
    requires src[0] == '=' ==> |src| == 1 || src[1] != '>'
    ensures Step(src) == Take(Punct(src[0]), 1)
  {
    hide Run, BlockEnd, LexNumber, LexHex, FloatRun, LexLiteral, IsPunct, IsSpace, IsNameStart;
    PunctuationIs(src[0]);
  }

  lemma PunctuationIs(c: char)
    requires c in {'(', ')', '{', '}', '<', '>', ',', ';', '@', '=', '-', '?', '.', '[', ']', '&', '|'}
    ensures IsPunct(c) && !IsSpace(c) && !IsNameStart(c) && !IsDigit(c) && c !in {'/', '"', '0'}
  {
  }

  lemma ArrowRule(rest: string)
    ensures Lex("=>" + rest) == Push([Arrow], Lex(rest))
  {
    hide Run, BlockEnd, LexNumber, LexHex, FloatRun, LexLiteral;
    var src := "=>" + rest;
    assert src[0] == '=' && src[1] == '>' && src[2..] == rest;
    assert Step(src) == Take(Arrow, 2);
  }

  /** Every other character is an error, and a '/' that begins no comment is one. */
  lemma OtherRule(c: char, rest: string)
    requires c in {'!', '#', '$', '%', '\'', '*', '+', '/', ':', '\\', '^', '`', '~'}
    requires c == '/' ==> rest == "" || (rest[0] != '/' && rest[0] != '*')
    ensures Lex([c] + rest) == None
  {
    hide Run, BlockEnd, LexNumber, LexHex, FloatRun, LexLiteral;
    var src := [c] + rest;
    assert rest != "" ==> src[1] == rest[0];
    OtherIs(c);
    assert Step(src) == Bad;
  }

  lemma OtherIs(c: char)
    requires c in {'!', '#', '$', '%', '\'', '*', '+', '/', ':', '\\', '^', '`', '~'}
    ensures !IsPunct(c) && !IsSpace(c) && !IsNameStart(c) && !IsDigit(c) && c != '"' && c != '0' && c != '.' && c != '='
  {
  }

  // ----- numbers -----

  predicate AllNumerals(s: string) { s != "" && forall i :: 0 <= i < |s| ==> IsNumeral(s[i]) }

  lemma DigitsAhead(digits: string, rest: string)
    requires forall i :: 0 <= i < |digits| ==> IsNumeral(digits[i])
    requires rest == "" || !IsNumeral(rest[0])
    ensures Run(digits + rest, IsDigit) == |digits|
    ensures (digits + rest)[..|digits|] == digits && (digits + rest)[|digits|..] == rest
  {
    RunIs(digits + rest, IsDigit, |digits|);
  }

  /**
    Digits without a fraction or an exponent behind them are a number, if they are not led by a zero;
    the zero alone is one, where no 'x' follows.
   */
  lemma NumberRule(digits: string, rest: string)
    requires AllNumerals(digits) && NoDigits(rest) && !FractionAhead(rest) && !ExponentAhead(rest)
    requires digits == "0" && rest != "" ==> rest[0] != 'x' && rest[0] != 'X'
    ensures Lex(digits + rest) == if |digits| > 1 && digits[0] == '0' then None else Push([Number(digits)], Lex(rest))
  {
    hide Run, Step, FloatRun;
    var src := digits + rest;
    DigitsAhead(digits, rest);
    DigitsStep(digits, rest);
    NoFloat(rest);
    assert src[0] == digits[0];
    assert src[|digits|..] == rest;
  }

  lemma NoFloat(rest: string)
    requires !FractionAhead(rest) && !ExponentAhead(rest)
    ensures FloatRun(rest) == 0
  {
    assert rest[0..] == rest;
    if |rest| > 1 {
      assert rest[1..][0] == rest[1];
      assert |rest| > 2 ==> rest[2..][0] == rest[2];
    }
  }

  /** An 'e', a sign or none, and digits. */
  predicate IsExponent(s: string) {
    && |s| >= 2 && (s[0] == 'e' || s[0] == 'E')
    && (AllNumerals(s[1..]) || (|s| >= 3 && (s[1] == '+' || s[1] == '-') && AllNumerals(s[2..])))
  }

  lemma ExponentIs(s: string, rest: string)
    requires if s == "" then !ExponentAhead(rest) else IsExponent(s) && NoDigits(rest)
    ensures ExponentRun(s + rest) == |s|
  {
    hide Run;
    var src := s + rest;
    if s != "" {
      var signed := s[1] == '+' || s[1] == '-';
      var j := if signed then 2 else 1;
      assert src[0] == s[0] && src[1] == s[1] && src[j..] == s[j..] + rest;
      DigitsAhead(s[j..], rest);
    } else {
      assert src == rest;
      if |rest| > 1 {
        assert rest[1..][0] == rest[1];
        assert |rest| > 2 ==> rest[2..][0] == rest[2];
      }
    }
  }

  /** A point and digits, or nothing. */
  predicate IsFraction(s: string) { s == "" || (s[0] == '.' && AllNumerals(s[1..])) }

  lemma FractionIs(s: string, rest: string)
    requires if s == "" then !FractionAhead(rest) else IsFraction(s) && NoDigits(rest)
    ensures FractionRun(s + rest) == |s| && (s + rest)[|s|..] == rest
  {
    hide Run;
    var src := s + rest;
    if s != "" {
      assert src[0] == '.' && src[1] == s[1] && src[1..] == s[1..] + rest;
      DigitsAhead(s[1..], rest);
    } else {
      assert src == rest;
    }
  }

  /** A fraction, an exponent or both, and nothing behind them that would make them longer. */
  predicate IsFloatTail(fraction: string, exponent: string, rest: string) {
    && IsFraction(fraction) && (fraction != "" || exponent != "") && NoDigits(rest)
    && if exponent == "" then !ExponentAhead(rest) else IsExponent(exponent)
  }

  lemma FloatIs(fraction: string, exponent: string, rest: string)
    requires IsFloatTail(fraction, exponent, rest)
    ensures FloatRun(fraction + (exponent + rest)) == |fraction| + |exponent|
  {
    hide FractionRun, ExponentRun;
    var behind := exponent + rest;
    assert exponent != "" ==> behind[0] == exponent[0];
    assert exponent == "" ==> behind == rest;
    FractionIs(fraction, behind);
    ExponentIs(exponent, rest);
  }

  /** Digits with a fraction, an exponent, or both behind them are a floating number. */
  lemma FloatRule(whole: string, fraction: string, exponent: string, rest: string)
    requires AllNumerals(whole) && IsFloatTail(fraction, exponent, rest)
    ensures Lex(whole + (fraction + (exponent + rest))) ==
            Push([FloatNumber(whole + (fraction + exponent))], Lex(rest))
  {
    hide Run, Step, FloatRun, IsExponent, LexNumber;
    var behind := fraction + (exponent + rest);
    var src := whole + behind;
    BehindWhole(fraction, exponent, rest);
    FloatIs(fraction, exponent, rest);
    DigitsStep(whole, behind);
    DigitsAhead(whole, behind);
    var n := |whole| + |fraction| + |exponent|;
    FloatTaken(src, whole, behind, |fraction| + |exponent|);
    assert src[..n] == whole + (fraction + exponent) && src[n..] == rest;
  }

  lemma FloatTaken(src: string, whole: string, behind: string, n: nat)
    requires AllNumerals(whole) && src == whole + behind && (behind == "" || !IsNumeral(behind[0]))
    requires FloatRun(behind) == n > 0
    ensures LexNumber(src) == Take(FloatNumber(src[..|whole| + n]), |whole| + n)
  {
    hide Run, FloatRun;
    DigitsAhead(whole, behind);
  }

  lemma BehindWhole(fraction: string, exponent: string, rest: string)
    requires IsFraction(fraction) && (exponent == "" || IsExponent(exponent)) && (fraction != "" || exponent != "")
    ensures var behind := fraction + (exponent + rest); behind != "" && behind[0] in {'.', 'e', 'E'}
  {
    if fraction == "" { assert fraction + (exponent + rest) == exponent + rest; }
  }

  lemma DigitsStep(digits: string, behind: string)
    requires AllNumerals(digits) && (behind == "" || !IsNumeral(behind[0]))
    requires digits == "0" && behind != "" ==> behind[0] != 'x' && behind[0] != 'X'
    ensures Step(digits + behind) == LexNumber(digits + behind)
  {
    hide Run, BlockEnd, LexNumber, LexHex, FloatRun, LexLiteral, IsPunct;
    var src := digits + behind;
    assert src[0] == digits[0];
    assert |digits| > 1 ==> src[1] == digits[1];
    assert |digits| == 1 && behind != "" ==> src[1] == behind[0];
  }

  /** So is a fraction alone, with an exponent or without. */
  lemma PointRule(fraction: string, exponent: string, rest: string)
    requires fraction != "" && IsFloatTail(fraction, exponent, rest)
    ensures Lex(fraction + (exponent + rest)) == Push([FloatNumber(fraction + exponent)], Lex(rest))
  {
    hide Step, FloatRun, IsExponent;
    var src := fraction + (exponent + rest);
    FloatIs(fraction, exponent, rest);
    assert src[0] == '.' && src[1] == fraction[1];
    var n := |fraction| + |exponent|;
    PointStep(src);
    assert src[..n] == fraction + exponent && src[n..] == rest;
  }

  lemma PointStep(src: string)
    requires |src| > 1 && src[0] == '.' && IsNumeral(src[1])
    ensures Step(src) == Take(FloatNumber(src[..FloatRun(src)]), FloatRun(src))
  {
    hide Run, BlockEnd, LexNumber, LexHex, FloatRun, LexLiteral, IsPunct;
  }

  /** "0x" and hexadecimal digits are a number too, and without digits an error. */
  lemma HexRule(x: char, digits: string, rest: string)
    requires (x == 'x' || x == 'X') && (forall i :: 0 <= i < |digits| ==> IsHexadecimal(digits[i]))
    requires rest == "" || !IsHexadecimal(rest[0])
    ensures var text := ['0', x] + digits;
            Lex(text + rest) == if digits == "" then None else Push([HexNumber(text)], Lex(rest))
  {
    hide Step, Run;
    var text := ['0', x] + digits;
    var src := text + rest;
    assert src[0] == '0' && src[1] == x && src[2..] == digits + rest;
    RunIs(digits + rest, IsHexDigit, |digits|);
    assert src[..2 + |digits|] == text && src[2 + |digits|..] == rest;
    HexStep(src);
  }

  lemma HexStep(src: string)
    requires StartsHex(src)
    ensures Step(src) == LexHex(src)
  {
    hide BlockEnd, LexLiteral, LexNumber, LexHex, FloatRun, IsPunct, Run;
  }

  // ----- escapes in string literals -----

  /** A decimal escape is the character of that code, modulo 256; one above the range of long is an error. */
  lemma DecimalEscapeRule(digits: string, rest: string)
    requires AllNumerals(digits) && (forall i :: 0 <= i < |digits| ==> IsDigit(digits[i]))
    requires rest == "" || !IsNumeral(rest[0])
    ensures LiteralBody("\\" + (digits + rest)) ==
            if DecimalValue(digits) > 0x7FFF_FFFF_FFFF_FFFF then None
            else Longer([(DecimalValue(digits) % 256) as char], 1 + |digits|, LiteralBody(rest))
  {
    hide Run, DecimalValue, LiteralBody, CodeEscape;
    var src := "\\" + (digits + rest);
    assert src[0] == '\\' && src[1] == digits[0] && src[1..] == digits + rest && src[1 + |digits|..] == rest;
    BodyTurn(src);
    DecimalEscape(src, digits, rest);
  }

  lemma DecimalEscape(src: string, digits: string, rest: string)
    requires AllNumerals(digits) && (forall i :: 0 <= i < |digits| ==> IsDigit(digits[i]))
    requires |src| > 1 && src[0] == '\\' && src[1..] == digits + rest && IsDecimalEscape(src)
    requires rest == "" || !IsNumeral(rest[0])
    ensures CodeEscape(src) ==
            if DecimalValue(digits) > 0x7FFF_FFFF_FFFF_FFFF then None
            else Some(Escape((DecimalValue(digits) % 256) as char, 1 + |digits|))
  {
    hide Run, DecimalValue, HexValue;
    DigitsAhead(digits, rest);
  }

  /** So is a hexadecimal one. */
  lemma HexEscapeRule(digits: string, rest: string)
    requires digits != "" && (forall i :: 0 <= i < |digits| ==> IsHexDigit(digits[i]))
    requires rest == "" || !IsHexadecimal(rest[0])
    ensures LiteralBody("\\x" + (digits + rest)) ==
            if HexValue(digits) > 0x7FFF_FFFF_FFFF_FFFF then None
            else Longer([(HexValue(digits) % 256) as char], 2 + |digits|, LiteralBody(rest))
  {
    hide Run, HexValue, LiteralBody, CodeEscape;
    var src := "\\x" + (digits + rest);
    assert src[0] == '\\' && src[1] == 'x' && src[2] == digits[0] && src[2..] == digits + rest && src[2 + |digits|..] == rest;
    BodyTurn(src);
    HexEscape(src, digits, rest);
  }

  lemma HexEscape(src: string, digits: string, rest: string)
    requires digits != "" && (forall i :: 0 <= i < |digits| ==> IsHexDigit(digits[i]))
    requires |src| > 2 && src[0] == '\\' && src[1] == 'x' && src[2..] == digits + rest
    requires IsHexEscape(src) && (rest == "" || !IsHexadecimal(rest[0]))
    ensures CodeEscape(src) ==
            if HexValue(digits) > 0x7FFF_FFFF_FFFF_FFFF then None
            else Some(Escape((HexValue(digits) % 256) as char, 2 + |digits|))
  {
    hide Run, HexValue, DecimalValue;
    RunIs(digits + rest, IsHexDigit, |digits|);
    assert (digits + rest)[..|digits|] == digits;
  }

  /** The number a digit stands for, in either case. */
  function DigitOf(c: char): nat
    requires IsHexadecimal(c)
  {
    if c <= '9' then c as int - 0x30 else if c <= 'F' then c as int - 0x41 + 10 else c as int - 0x61 + 10
  }

  /** Both count as usual: one more digit behind is ten or sixteen times as much and the digit. */
  lemma CodesCount(s: string, c: char)
    requires forall i :: 0 <= i < |s| ==> IsHexDigit(s[i])
    requires IsHexDigit(c)
    ensures HexValue("") == 0 && HexValue(s + [c]) == 16 * HexValue(s) + DigitOf(c)
    ensures DecimalValue("") == 0
    ensures (forall i :: 0 <= i < |s| ==> IsDigit(s[i])) && IsDigit(c) ==>
              DecimalValue(s + [c]) == 10 * DecimalValue(s) + DigitOf(c)
  {
    var longer := s + [c];
    assert longer[..|longer| - 1] == s && longer[|longer| - 1] == c;
  }

  /** A literal that reaches the end of its line, or of the text, is an error. */
  lemma OpenLiteralRule(text: string, rest: string)
    requires (forall i :: 0 <= i < |text| ==> text[i] != '"' && text[i] != '\n' && text[i] != '\\')
    requires rest == "" || rest[0] == '\n'
    ensures Lex("\"" + (text + rest)) == None
  {
    hide LiteralBody, Step;
    var src := "\"" + (text + rest);
    assert src[0] == '"' && src[1..] == text + rest;
    OpenBody(text, rest);
    QuoteStep(src);
  }

  lemma QuoteStep(src: string)
    requires src != "" && src[0] == '"'
    ensures Step(src) == LexLiteral(src)
  {
    hide LiteralBody, Run, BlockEnd, LexNumber, LexHex, FloatRun, IsPunct, LexLiteral;
  }

  lemma {:induction false} OpenBody(text: string, rest: string)
    requires (forall i :: 0 <= i < |text| ==> text[i] != '"' && text[i] != '\n' && text[i] != '\\')
    requires rest == "" || rest[0] == '\n'
    ensures LiteralBody(text + rest) == None
  {
    hide LiteralBody, CodeEscape;
    if text == "" {
      assert text + rest == rest;
      BodyStops(rest, "", 0);
      LongerNothing(LiteralBody(rest));
    } else {
      assert (text + rest)[1..] == text[1..] + rest && (text + rest)[0] == text[0];
      BodyTurn(text + rest);
      OpenBody(text[1..], rest);
    }
  }
}
