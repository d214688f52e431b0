/**
 * The pieces of Python's `str` and `int` behaviour, and of aiogram's text
 * filters, that the handlers depend on: `int(text)`, `str(n)`, `str.lower()`,
 * the substring test `pat in s`, `str.startswith` and the `Command` filter's
 * reading of a "/command@mention args" message.
 */
module PyText {
  import opened Wrappers

  /** The ASCII whitespace that `str.split()` and `int()` skip. */
  predicate IsSpace(c: char)
  {
    c == ' ' || c == '\t' || c == '\n' || c == '\r' || c == '\U{000B}' || c == '\U{000C}'
  }

  predicate IsDigit(c: char)
  {
    '0' <= c <= '9'
  }

  function DigitValue(c: char): nat
    requires IsDigit(c)
  {
    c as int - '0' as int
  }

  function DigitChar(d: nat): (c: char)
    requires d < 10
    ensures IsDigit(c) && DigitValue(c) == d
  {
    ('0' as int + d) as char
  }

  // ---------------------------------------------------------------------------
  // Stripping whitespace

  /** `s.lstrip()`: drops the leading whitespace. */
  function TrimStart(s: string): (r: string)
    ensures |r| <= |s| && r == s[|s| - |r|..]
    ensures r == [] || !IsSpace(r[0])
    ensures forall i :: 0 <= i < |s| - |r| ==> IsSpace(s[i])
  {
    if s != [] && IsSpace(s[0]) then TrimStart(s[1..]) else s
  }

  /** `s.rstrip()`: drops the trailing whitespace. */
  function TrimEnd(s: string): (r: string)
    ensures |r| <= |s| && r == s[..|r|]
    ensures r == [] || !IsSpace(r[|r| - 1])
    ensures forall i :: |r| <= i < |s| ==> IsSpace(s[i])
  {
    if s != [] && IsSpace(s[|s| - 1]) then TrimEnd(s[..|s| - 1]) else s
  }

  function Strip(s: string): string
  {
    TrimEnd(TrimStart(s))
  }

  // ---------------------------------------------------------------------------
  // int(text) and str(n)

  /**
   * A base-10 literal as `int()` accepts it after the sign: digits, with single
   * underscores allowed between two digits.
   */
  predicate IsDecimalLiteral(b: string)
  {
    |b| > 0 && forall i :: 0 <= i < |b| ==> LiteralCharAt(b, i)
  }

  predicate LiteralCharAt(b: string, i: int)
    requires 0 <= i < |b|
  {
    IsDigit(b[i]) || (0 < i < |b| - 1 && b[i] == '_' && IsDigit(b[i - 1]) && IsDigit(b[i + 1]))
  }

  /** The value of the digits of `b`, underscores skipped. */
  function DigitsValue(b: string): nat
  {
    if b == [] then 0
    else if IsDigit(b[|b| - 1]) then DigitsValue(b[..|b| - 1]) * 10 + DigitValue(b[|b| - 1])
    else DigitsValue(b[..|b| - 1])
  }

  /**
   * `int(text)`: surrounding whitespace is ignored, then an optional sign and a
   * base-10 literal. `None` stands for the `ValueError` Python raises.
   */
  function ParseInt(text: string): (r: Option<int>)
    ensures Strip(text) == [] ==> r.None?
    ensures r.Some? ==> IsDigit(Strip(text)[|Strip(text)| - 1])
    ensures r.Some? && r.value < 0 ==> Strip(text)[0] == '-'
  {
    var t := Strip(text);
    if t != [] && (t[0] == '-' || t[0] == '+') then
      var magnitude: int := DigitsValue(t[1..]);
      if IsDecimalLiteral(t[1..]) then
        LiteralEndsInDigit(t[1..]);
        Some(if t[0] == '-' then -magnitude else magnitude)
      else None
    else if IsDecimalLiteral(t) then
      LiteralEndsInDigit(t);
      Some(DigitsValue(t))
    else None
  }

  lemma LiteralEndsInDigit(b: string)
    requires IsDecimalLiteral(b)
    ensures IsDigit(b[|b| - 1])
  {
    assert LiteralCharAt(b, |b| - 1);
  }

  /** `str(n)` for a natural number: its digits, without leading zeros. */
  function NatDecimal(n: nat): (r: string)
    ensures |r| > 0 && forall i :: 0 <= i < |r| ==> IsDigit(r[i])
    ensures r[0] == '0' ==> n == 0
  {
    if n < 10 then [DigitChar(n)] else NatDecimal(n / 10) + [DigitChar(n % 10)]
  }

  /** `str(n)`. */
  function Decimal(n: int): (r: string)
    ensures |r| > 0 && (r[0] == '-' <==> n < 0)
    ensures forall i :: 0 < i < |r| ==> IsDigit(r[i])
  {
    if n < 0 then "-" + NatDecimal(-n) else NatDecimal(n)
  }

  lemma {:induction false} NatDecimalValue(n: nat)
    ensures IsDecimalLiteral(NatDecimal(n)) && DigitsValue(NatDecimal(n)) == n
  {
    var r := NatDecimal(n);
    if n >= 10 {
      NatDecimalValue(n / 10);
      assert r[..|r| - 1] == NatDecimal(n / 10);
    }
  }

  /** `int(str(n)) == n`: the labels and ids the bot prints read back as themselves. */
  lemma ParseIntDecimal(n: int)
    ensures ParseInt(Decimal(n)) == Some(n)
  {
    var r := Decimal(n);
    StripUnpadded(r);
    if n < 0 {
      assert r[1..] == NatDecimal(-n);
      NatDecimalValue(-n);
    } else {
      NatDecimalValue(n);
    }
  }

  /** A text that neither starts nor ends with whitespace is its own `strip()`. */
  lemma StripUnpadded(r: string)
    requires r != [] && !IsSpace(r[0]) && !IsSpace(r[|r| - 1])
    ensures Strip(r) == r
  {
    assert TrimStart(r) == r;
  }

  /** A character `int()` cannot accept anywhere in its argument. */
  predicate IsForeignToInt(c: char)
  {
    !IsSpace(c) && !IsDigit(c) && c != '+' && c != '-' && c != '_'
  }

  lemma NotALiteral(b: string, j: int)
    requires 0 <= j < |b| && IsForeignToInt(b[j])
    ensures !IsDecimalLiteral(b)
  {
    assert !LiteralCharAt(b, j);
  }

  /** Stripping keeps every character that is not whitespace. */
  lemma StripKeeps(text: string, i: int) returns (j: int)
    requires 0 <= i < |text| && !IsSpace(text[i])
    ensures 0 <= j < |Strip(text)| && Strip(text)[j] == text[i]
  {
    var s := TrimStart(text);
    var a := |text| - |s|;
    assert a <= i;
    j := i - a;
    assert s[j] == text[i];
  }

  /**
   * `int(text)` raises whenever the text holds a character that can be neither
   * whitespace, a sign, a digit nor an underscore (a letter, a '/', ...).
   */
  lemma ParseIntRejects(text: string, i: int)
    requires 0 <= i < |text| && IsForeignToInt(text[i])
    ensures ParseInt(text) == None
  {
    var j := StripKeeps(text, i);
    var t := Strip(text);
    NotALiteral(t, j);
    if t[0] == '-' || t[0] == '+' {
      assert t[1..][j - 1] == t[j];
      NotALiteral(t[1..], j - 1);
    }
  }

  // ---------------------------------------------------------------------------
  // str.lower(), `in`, str.startswith

  /** `str.lower()` on ASCII and Cyrillic capitals; every other character is kept. */
  function LowerChar(c: char): char
  {
    if 'A' <= c <= 'Z' || 'А' <= c <= 'Я' then (c as int + 32) as char
    else if 'Ѐ' <= c <= 'Џ' then (c as int + 80) as char
    else c
  }

  function Lower(s: string): (r: string)
    ensures |r| == |s| && forall i :: 0 <= i < |s| ==> r[i] == LowerChar(s[i])
  {
    seq(|s|, i requires 0 <= i < |s| => LowerChar(s[i]))
  }

  /** `pat` occurs in `s` starting at offset `i`. */
  predicate OccursAt(s: string, pat: string, i: int)
  {
    0 <= i && i + |pat| <= |s| && s[i..i + |pat|] == pat
  }

  /** `pat in s`. */
  predicate Contains(s: string, pat: string)
    ensures Contains(s, pat) ==> |pat| <= |s|
    ensures pat == [] ==> Contains(s, pat)
  {
    assert pat == [] ==> OccursAt(s, pat, 0);
    exists i :: 0 <= i <= |s| && OccursAt(s, pat, i)
  }

  /** A text lacking one of the pattern's characters does not contain the pattern. */
  lemma MissingChar(s: string, pat: string, c: char)
    requires c in pat && c !in s
    ensures !Contains(s, pat)
  {
    var j :| 0 <= j < |pat| && pat[j] == c;
    forall i | 0 <= i <= |s| ensures !OccursAt(s, pat, i) {
      if i + |pat| <= |s| {
        assert s[i..i + |pat|][j] == s[i + j];
      }
    }
  }

  /** A piece that follows a prefix of `s` occurs in any text ending with `s`. */
  lemma OccursAfterPrefix(h: string, p: string, e: string, s: string)
    requires p + e <= s
    ensures OccursAt(h + s, e, |h| + |p|)
  {
    assert (h + s)[|h| + |p|..|h| + |p| + |e|] == s[|p|..|p| + |e|] == (p + e)[|p|..];
  }

  /** Every text contains itself. */
  lemma ContainsItself(s: string)
    ensures Contains(s, s)
  {
    assert OccursAt(s, s, 0);
  }

  predicate StartsWith(s: string, prefix: string)
    ensures StartsWith(s, prefix) ==> Contains(s, prefix)
    ensures StartsWith(s, prefix) <==> exists t :: s == prefix + t
  {
    assert |prefix| <= |s| ==> s == s[..|prefix|] + s[|prefix|..];
    assert forall t :: s == prefix + t ==> s[..|prefix|] == prefix;
    assert |prefix| <= |s| && s[..|prefix|] == prefix ==> OccursAt(s, prefix, 0);
    |prefix| <= |s| && s[..|prefix|] == prefix
  }

  // ---------------------------------------------------------------------------
  // aiogram's Command filter

  /** The characters of `s` up to the first whitespace. */
  function TokenPrefix(s: string): (r: string)
    ensures |r| <= |s| && r == s[..|r|]
    ensures forall i :: 0 <= i < |r| ==> !IsSpace(r[i])
  {
    if s == [] || IsSpace(s[0]) then [] else [s[0]] + TokenPrefix(s[1..])
  }

  /** `text.split(maxsplit=1)[0]`, or empty when the text is blank. */
  function FirstToken(text: string): string
  {
    TokenPrefix(TrimStart(text))
  }

  /** The command part of "command@mention": everything before the first '@'. */
  function CommandName(s: string): (r: string)
    ensures |r| <= |s| && r == s[..|r|]
  {
    if s == [] || s[0] == '@' then [] else [s[0]] + CommandName(s[1..])
  }

  /**
   * aiogram's `Command(name)`: the first token is '/', then `name`, then
   * nothing or an '@' and a mention. Commands are matched case-sensitively.
   */
  predicate IsCommand(text: string, name: string)
    ensures IsCommand(text, name) ==> StartsWith(TrimStart(text), "/" + name)
  {
    var token := FirstToken(text);
    token != [] && token[0] == '/' && CommandName(token[1..]) == name
  }

  /** A message that does not start with whitespace or '/' is no command. */
  lemma NotACommand(text: string, name: string)
    requires text != [] && !IsSpace(text[0]) && text[0] != '/'
    ensures !IsCommand(text, name)
  {
    assert TrimStart(text) == text;
  }
}
