/** The small part of Java's string library that the board server relies on:
    ASCII case folding (toLowerCase, toUpperCase, equalsIgnoreCase), startsWith,
    contains, trim, String.join with a single space, Integer.parseInt and the
    decimal form of an int (used by noteKey and by the reply lines). */
module JavaText {

  datatype Option<T> = None | Some(value: T)

  const MinInt: int := -0x8000_0000
  const MaxInt: int := 0x7fff_ffff

  predicate IsInt32(v: int) { MinInt <= v <= MaxInt }

  // ---------------------------------------------------------------- case

  function LowerChar(c: char): char
  {
    if 'A' <= c <= 'Z' then (c as int + 32) as char else c
  }

  function UpperChar(c: char): char
  {
    if 'a' <= c <= 'z' then (c as int - 32) as char else c
  }

  /** String.toLowerCase, restricted to ASCII letters. */
  function Lower(s: string): (r: string)
    ensures |r| == |s|
    ensures forall i :: 0 <= i < |s| ==> r[i] == LowerChar(s[i])
  {
    if s == [] then [] else [LowerChar(s[0])] + Lower(s[1..])
  }

  /** String.toUpperCase, restricted to ASCII letters. */
  function Upper(s: string): (r: string)
    ensures |r| == |s|
    ensures forall i :: 0 <= i < |s| ==> r[i] == UpperChar(s[i])
  {
    if s == [] then [] else [UpperChar(s[0])] + Upper(s[1..])
  }

  /** String.equalsIgnoreCase: for ASCII text, equal after lower-casing. */
  predicate EqualsIgnoreCase(a: string, b: string)
  {
    Lower(a) == Lower(b)
  }

  /** String.startsWith. */
  predicate StartsWith(s: string, prefix: string)
  {
    prefix <= s
  }

  /** String.contains: some window of `s` equals `sub` (the empty string is in every string). */
  predicate Contains(s: string, sub: string)
  {
    exists i :: 0 <= i <= |s| - |sub| && sub <= s[i..]
  }

  // ---------------------------------------------------------------- trim and join

  /** String.trim: drops every leading and trailing character at or below U+0020. */
  function Trim(s: string): (r: string)
    ensures |r| <= |s|
    ensures r == [] || (r[0] > ' ' && r[|r| - 1] > ' ')
  {
    TrimEnd(TrimStart(s))
  }

  function TrimStart(s: string): (r: string)
    ensures |r| <= |s| && r == s[|s| - |r|..]
    ensures r == [] || r[0] > ' '
  {
    if s != [] && s[0] <= ' ' then TrimStart(s[1..]) else s
  }

  function TrimEnd(s: string): (r: string)
    ensures |r| <= |s| && r == s[..|r|]
    ensures r == [] || r[|r| - 1] > ' '
  {
    if s != [] && s[|s| - 1] <= ' ' then TrimEnd(s[..|s| - 1]) else s
  }

  /** String.join(" ", words). */
  function Join(words: seq<string>): string
  {
    if |words| == 0 then ""
    else if |words| == 1 then words[0]
    else Join(words[..|words| - 1]) + " " + words[|words| - 1]
  }

  // ---------------------------------------------------------------- integers

  predicate IsDigit(c: char) { '0' <= c <= '9' }

  predicate AllDigits(s: string) { forall i :: 0 <= i < |s| ==> IsDigit(s[i]) }

  function DigitValue(c: char): nat requires IsDigit(c) { c as int - '0' as int }

  function DigitChar(d: nat): (c: char)
    requires d < 10
    ensures IsDigit(c) && DigitValue(c) == d
  {
    ('0' as int + d) as char
  }

  /** The value of a run of decimal digits, most significant first. */
  function DigitsValue(s: string): nat
    requires AllDigits(s)
  {
    if s == [] then 0 else DigitsValue(s[..|s| - 1]) * 10 + DigitValue(s[|s| - 1])
  }

  /** Integer.parseInt(s, 10) over ASCII digits: an optional sign, then at least one
      digit, and a value in the 32-bit range; anything else is a NumberFormatException,
      modelled as None. */
  function ParseInt(s: string): (r: Option<int>)
    ensures r.Some? ==> IsInt32(r.value)
  {
    if s == [] then None
    else
      var signed := s[0] == '-' || s[0] == '+';
      var digits := if signed then s[1..] else s;
      if digits == [] || !AllDigits(digits) then None
      else
        var v: int := if s[0] == '-' then -(DigitsValue(digits) as int) else DigitsValue(digits);
        if IsInt32(v) then Some(v) else None
  }

  /** Decimal digits of a natural number, without leading zeros. */
  function NatDecimal(n: nat): (s: string)
    ensures s != [] && AllDigits(s)
  {
    if n < 10 then [DigitChar(n)] else NatDecimal(n / 10) + [DigitChar(n % 10)]
  }

  /** The decimal form Java prints for an int (`"" + n`, `%d`). */
  function Decimal(n: int): (s: string)
    ensures s != []
  {
    if n < 0 then "-" + NatDecimal(-n) else NatDecimal(n)
  }

  lemma {:induction false} NatDecimalValue(n: nat)
    ensures DigitsValue(NatDecimal(n)) == n
  {
    if n >= 10 {
      var s := NatDecimal(n / 10);
      NatDecimalValue(n / 10);
      assert (s + [DigitChar(n % 10)])[..|s|] == s;
    }
  }

  /** Integer.parseInt reads back every int that Java prints. */
  lemma ParseDecimal(n: int)
    requires IsInt32(n)
    ensures ParseInt(Decimal(n)) == Some(n)
  {
    var d := NatDecimal(if n < 0 then -n else n);
    NatDecimalValue(if n < 0 then -n else n);
    if n < 0 {
      assert Decimal(n)[1..] == d;
    } else {
      assert d[0] != '-' && d[0] != '+' by { assert IsDigit(d[0]); }
    }
  }

  /** The key `noteKey` builds for an origin: the two coordinates joined by a comma. */
  function NoteKey(x: int, y: int): string
  {
    Decimal(x) + "," + Decimal(y)
  }

  lemma NoCommaInDecimal(n: int)
    ensures ',' !in Decimal(n)
  {
    var d := NatDecimal(if n < 0 then -n else n);
    assert forall i :: 0 <= i < |d| ==> IsDigit(d[i]);
    if n < 0 {
      assert forall i :: 0 <= i < |Decimal(n)| ==> Decimal(n)[i] == '-' || IsDigit(Decimal(n)[i]);
    }
  }

  lemma {:induction false} DecimalInjective(a: int, b: int)
    requires Decimal(a) == Decimal(b)
    ensures a == b
  {
    var da := NatDecimal(if a < 0 then -a else a);
    var db := NatDecimal(if b < 0 then -b else b);
    NatDecimalValue(if a < 0 then -a else a);
    NatDecimalValue(if b < 0 then -b else b);
    assert IsDigit(da[0]) && IsDigit(db[0]);
    if a < 0 && b < 0 {
      assert da == Decimal(a)[1..] == Decimal(b)[1..] == db;
    }
  }

  /** If two strings joined at a comma agree and neither left part holds a comma,
      the parts agree. */
  lemma SplitAtComma(a: string, b: string, c: string, d: string)
    requires ',' !in a && ',' !in c
    requires a + "," + b == c + "," + d
    ensures a == c && b == d
  {
    var s := a + "," + b;
    assert s[|a|] == ',' && s[|c|] == ',';
    assert a == s[..|a|] == c;
    assert b == s[|a| + 1..] == d;
  }

  /** noteKey is injective, so a pin's set of keys can be modelled as a set of origins. */
  lemma NoteKeyInjective(x1: int, y1: int, x2: int, y2: int)
    requires NoteKey(x1, y1) == NoteKey(x2, y2)
    ensures x1 == x2 && y1 == y2
  {
    NoCommaInDecimal(x1);
    NoCommaInDecimal(x2);
    SplitAtComma(Decimal(x1), Decimal(y1), Decimal(x2), Decimal(y2));
    DecimalInjective(x1, x2);
    DecimalInjective(y1, y2);
  }

  // ---------------------------------------------------------------- lemmas on join and trim

  lemma {:induction false} JoinSingleSpaced(words: seq<string>, w: string)
    requires words != []
    ensures Join(words + [w]) == Join(words) + " " + w
  {
    assert (words + [w])[..|words|] == words;
  }
}
