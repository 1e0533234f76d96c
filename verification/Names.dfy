/**
  Spelling: which characters make a name, how numbers print, and how a string splits at the
  end of its leading word.
 */
module Names {

  predicate IsDigit(c: char) { '0' <= c <= '9' }

  predicate IsNameStart(c: char) { 'a' <= c <= 'z' || 'A' <= c <= 'Z' || c == '_' }

  predicate IsNameCont(c: char) { IsNameStart(c) || IsDigit(c) }

  /** An identifier as the lexer reads one. */
  predicate IsIdent(s: string) {
    s != "" && IsNameStart(s[0]) && forall i :: 0 <= i < |s| ==> IsNameCont(s[i])
  }

  /** What a dotted name is made of, plus the ':' of a type key's kind prefix. */
  predicate IsWordChar(c: char) { IsNameCont(c) || c == '.' || c == ':' }

  predicate IsWord(s: string) {
    forall i :: 0 <= i < |s| ==> IsWordChar(s[i])
  }

  predicate IsDotted(s: string) {
    forall i :: 0 <= i < |s| ==> IsNameCont(s[i]) || s[i] == '.'
  }

  function QualName(ns: string, name: string): string {
    if ns == "" then name else ns + "." + name
  }

  /** The rest of a string after a word: nothing, or something that cannot continue it. */
  predicate EndsWord(rest: string) {
    rest == "" || !IsWordChar(rest[0])
  }

  lemma {:induction false} WordSplit(a: string, x: string, b: string, y: string)
    requires IsWord(a) && IsWord(b) && EndsWord(x) && EndsWord(y)
    requires a + x == b + y
    ensures a == b && x == y
  {
    assert a != "" ==> (a + x)[0] == a[0];
    assert b != "" ==> (b + y)[0] == b[0];
    if a != "" && b != "" {
      assert (a + x)[1..] == a[1..] + x && (b + y)[1..] == b[1..] + y;
      WordSplit(a[1..], x, b[1..], y);
      assert a == [a[0]] + a[1..] && b == [b[0]] + b[1..];
    } else {
      assert a == "" ==> a + x == x;
      assert b == "" ==> b + y == y;
    }
  }

  /** A dotted prefix and a plain last segment are told apart by the last dot. */
  lemma LastDotSplit(p: string, m: string, q: string, n: string)
    requires forall i :: 0 <= i < |m| ==> m[i] != '.'
    requires forall i :: 0 <= i < |n| ==> n[i] != '.'
    requires p + "." + m == q + "." + n
    ensures p == q && m == n
  {
    var s := p + "." + m;
    assert s[|p|] == '.' && s[|q|] == '.';
    assert forall i :: |p| < i < |s| ==> s[i] == m[i - |p| - 1];
    assert forall i :: |q| < i < |s| ==> s[i] == n[i - |q| - 1];
    assert p == s[..|p|] && q == s[..|q|] && m == s[|p| + 1..] && n == s[|q| + 1..];
  }

  // ----- decimal numbers -----

  function DigitChar(d: nat): char
    requires d < 10
  {
    '0' + d as char
  }

  function DigitValue(c: char): nat
    requires IsDigit(c)
  {
    c as int - '0' as int
  }

  /** std::to_string. */
  function Decimal(n: nat): (s: string)
    ensures |s| > 0
    ensures forall i :: 0 <= i < |s| ==> IsDigit(s[i])
    ensures s[0] == '0' <==> n == 0
    ensures n == 0 ==> |s| == 1
  {
    if n < 10 then [DigitChar(n)] else Decimal(n / 10) + [DigitChar(n % 10)]
  }

  /** std::stoi on a run of digits, before its range check. */
  function DecimalValue(s: string): nat
    requires forall i :: 0 <= i < |s| ==> IsDigit(s[i])
  {
    if s == "" then 0 else 10 * DecimalValue(s[..|s| - 1]) + DigitValue(s[|s| - 1])
  }

  lemma {:induction false} DecimalInverse(n: nat)
    ensures DecimalValue(Decimal(n)) == n
  {
    if n < 10 {
      assert Decimal(n)[..0] == "";
    } else {
      DecimalInverse(n / 10);
      assert Decimal(n)[..|Decimal(n)| - 1] == Decimal(n / 10);
    }
  }
}
