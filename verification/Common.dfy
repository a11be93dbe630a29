/** Vocabulary shared by the models: optional values, character classes, signs. */
module Common {

  datatype Option<+T> = None | Some(value: T) {
    function GetOr(default: T): T { if Some? then value else default }
  }

  predicate IsDigit(c: char) { '0' <= c <= '9' }

  predicate IsLetter(c: char) { 'a' <= c <= 'z' || 'A' <= c <= 'Z' }

  lemma DigitClass(c: char)
    ensures IsDigit(c) <==> c in "0123456789"
  {
    InRange("0123456789", '0', '9', c);
  }

  lemma LetterClass(c: char)
    ensures IsLetter(c) <==> c in "abcdefghijklmnopqrstuvwxyz" || c in "ABCDEFGHIJKLMNOPQRSTUVWXYZ"
  {
    SmallLetters(c);
    InRange("ABCDEFGHIJKLMNOPQRSTUVWXYZ", 'A', 'Z', c);
  }

  lemma WordClass(c: char)
    ensures IsWordChar(c) <==> c in "0123456789" || c in "abcdefghijklmnopqrstuvwxyz"
                                || c in "ABCDEFGHIJKLMNOPQRSTUVWXYZ" || c == '_'
  {
    DigitClass(c);
    LetterClass(c);
    hide IsDigit, IsLetter;
  }

  lemma SmallLetters(c: char)
    ensures 'a' <= c <= 'z' <==> c in "abcdefghijklmnopqrstuvwxyz"
  {
    InRange("abcdefghijklmnopqrstuvwxyz", 'a', 'z', c);
  }

  lemma InRange(s: string, lo: char, hi: char, c: char)
    requires lo <= hi && |s| == hi as int - lo as int + 1 && forall i :: 0 <= i < |s| ==> s[i] as int == lo as int + i
    ensures c in s <==> lo <= c <= hi
  {
    if lo <= c <= hi { assert s[c as int - lo as int] as int == c as int; }
  }

  /** The class `\w` of the source's regular expressions. */
  predicate IsWordChar(c: char) { IsDigit(c) || IsLetter(c) || c == '_' }

  function DigitValue(c: char): (d: nat)
    requires IsDigit(c)
  {
    c as int - '0' as int
  }

  function Sign(x: int): int { if x < 0 then -1 else if x > 0 then 1 else 0 }

  predicate AllDigits(s: string) { forall c :: c in s ==> IsDigit(c) }

  /** The number a string of decimal digits stands for; the empty string stands for 0. */
  function NatOf(s: string): nat
    requires AllDigits(s)
  {
    if s == "" then 0
    else
      assert s[|s| - 1] in s && forall c :: c in s[..|s| - 1] ==> c in s;
      10 * NatOf(s[..|s| - 1]) + DigitValue(s[|s| - 1])
  }

  function DigitChar(v: nat): (c: char)
    requires v < 10
    ensures IsDigit(c) && DigitValue(c) == v
  {
    '0' + v as char
  }

  /** The decimal digits of a number, without leading zeros. */
  function NatStr(n: nat): (s: string)
    ensures s != "" && AllDigits(s) && NatOf(s) == n
    ensures s[0] == '0' <==> n == 0
    ensures n < 1000 ==> |s| <= 3
    ensures n < 100 ==> |s| <= 2
    ensures n < 10 ==> |s| <= 1
  {
    if n < 10 then
      var s := [DigitChar(n)];
      assert s[..|s| - 1] == "";
      s
    else
      var s := NatStr(n / 10) + [DigitChar(n % 10)];
      assert s[..|s| - 1] == NatStr(n / 10);
      s
  }

  /** Numbers are written in base ten. */
  lemma DecimalTexts(n: nat, v: nat)
    requires v < 10
    ensures NatStr(v) == ["0123456789"[v]]
    ensures n > 0 ==> NatStr(10 * n + v) == NatStr(n) + ["0123456789"[v]]
  {
    assert "0123456789"[v] as int == '0' as int + v;
    assert n > 0 ==> (10 * n + v) / 10 == n && (10 * n + v) % 10 == v;
  }
}
