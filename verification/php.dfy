/** The PHP scalar conversions the helpdesk code relies on: `empty()` on strings,
    the `(int)` cast of request text, integer-to-text conversion, the integer
    normalisation of array keys, `trim()`, `strpos()`, `substr_count()` and
    `explode()`. Strings are sequences of characters; no encoding is modelled. */
module Php {
  import opened Results

  /** `empty()` applied to a string: true for "" and for "0". */
  predicate Empty(s: string) {
    s == "" || s == "0"
  }

  predicate IsDigit(c: char) {
    '0' <= c <= '9'
  }

  predicate AllDigits(s: string) {
    forall i :: 0 <= i < |s| ==> IsDigit(s[i])
  }

  /** Whitespace skipped in front of a numeric string: space, tab, newline,
      carriage return, vertical tab and form feed. */
  predicate IsNumericSpace(c: char) {
    c == ' ' || c == '\t' || c == '\n' || c == '\r' || c as int == 11 || c as int == 12
  }

  /** Characters `trim()` strips by default: space, tab, newline, carriage
      return, NUL and vertical tab. */
  predicate IsTrimSpace(c: char) {
    c == ' ' || c == '\t' || c == '\n' || c == '\r' || c as int == 0 || c as int == 11
  }

  function SkipNumericSpace(s: string): (r: string)
    ensures |r| <= |s| && r == s[|s| - |r|..]
    ensures r == [] || !IsNumericSpace(r[0])
  {
    if |s| > 0 && IsNumericSpace(s[0]) then SkipNumericSpace(s[1..]) else s
  }

  /** The longest prefix of `s` made of decimal digits. */
  function LeadingDigits(s: string): (r: string)
    ensures |r| <= |s| && r == s[..|r|]
    ensures AllDigits(r)
    ensures |r| < |s| ==> !IsDigit(s[|r|])
  {
    if |s| > 0 && IsDigit(s[0]) then [s[0]] + LeadingDigits(s[1..]) else []
  }

  function DigitValue(c: char): nat
    requires IsDigit(c)
  {
    (c as int) - ('0' as int)
  }

  /** The value of a string of decimal digits, read most significant first. */
  function DigitsValue(d: string): nat
    requires AllDigits(d)
  {
    if |d| == 0 then 0 else DigitsValue(d[..|d| - 1]) * 10 + DigitValue(d[|d| - 1])
  }

  /** `(int) $s`: leading whitespace is skipped, an optional sign is read, then
      the longest run of digits; text with no leading digits gives 0. */
  function IntCast(s: string): int {
    var t := SkipNumericSpace(s);
    if |t| > 0 && (t[0] == '-' || t[0] == '+') then
      var n: int := DigitsValue(LeadingDigits(t[1..]));
      if t[0] == '-' then -n else n
    else
      DigitsValue(LeadingDigits(t))
  }

  function DigitChar(d: nat): (c: char)
    requires d < 10
    ensures IsDigit(c) && DigitValue(c) == d
  {
    ('0' as int + d) as char
  }

  /** Decimal text of a non-negative integer, without leading zeros. */
  function NatText(n: nat): (s: string)
    ensures |s| > 0 && AllDigits(s)
    ensures |s| > 1 ==> s[0] != '0'
  {
    if n < 10 then [DigitChar(n)] else NatText(n / 10) + [DigitChar(n % 10)]
  }

  /** The text PHP produces when an integer is turned into a string. */
  function IntText(n: int): (s: string)
    ensures |s| > 0
    ensures forall i :: 0 <= i < |s| ==> IsDigit(s[i]) || s[i] == '-'
  {
    if n < 0 then "-" + NatText(-n) else NatText(n)
  }

  lemma {:induction false} DigitsValueOfNatText(n: nat)
    ensures DigitsValue(NatText(n)) == n
  {
    if n >= 10 {
      DigitsValueOfNatText(n / 10);
      var s := NatText(n);
      assert s[..|s| - 1] == NatText(n / 10);
    }
  }

  lemma {:induction false} LeadingDigitsOfDigits(s: string)
    requires AllDigits(s)
    ensures LeadingDigits(s) == s
  {
    if |s| > 0 {
      LeadingDigitsOfDigits(s[1..]);
      assert [s[0]] + s[1..] == s;
    }
  }

  /** Reading the leading digits of a natural number's text gives it back. */
  lemma NatTextValue(n: nat)
    ensures DigitsValue(LeadingDigits(NatText(n))) == n
  {
    LeadingDigitsOfDigits(NatText(n));
    DigitsValueOfNatText(n);
  }

  /** Casting the text of a negative integer: the sign, then its digits. */
  lemma IntCastOfNegativeText(n: int)
    requires n < 0
    ensures IntCast("-" + NatText(-n)) == n
  {
    var t := NatText(-n);
    var s := "-" + t;
    assert s[0] == '-' && s[1..] == t;
    assert SkipNumericSpace(s) == s;
    NatTextValue(-n);
  }

  /** Text that starts with a digit casts to the value of its leading digits. */
  lemma IntCastOfDigitFirst(s: string)
    requires |s| > 0 && IsDigit(s[0])
    ensures IntCast(s) == DigitsValue(LeadingDigits(s))
  {
    assert SkipNumericSpace(s) == s;
    assert s[0] != '-' && s[0] != '+';
  }

  /** Casting the text of a natural number: its digits alone. */
  lemma IntCastOfNatText(n: nat)
    ensures IntCast(NatText(n)) == n
  {
    var s := NatText(n);
    assert IsDigit(s[0]);
    IntCastOfDigitFirst(s);
    NatTextValue(n);
  }

  /** Casting the text of an integer gives the integer back. */
  lemma IntCastOfIntText(n: int)
    ensures IntCast(IntText(n)) == n
  {
    if n < 0 {
      IntCastOfNegativeText(n);
    } else {
      IntCastOfNatText(n);
    }
  }

  /** The integer key PHP uses for a string array offset: a string that is the
      canonical decimal text of an integer addresses that integer's slot; any
      other string ("05", "+5", " 5", "-0") stays a string key. */
  function CanonicalKey(s: string): (r: Option<int>)
    ensures r.Some? ==> IntText(r.value) == s
  {
    var n := IntCast(s);
    if IntText(n) == s then Some(n) else None
  }

  /** A string addresses the integer slot `n` exactly when it is the text of `n`. */
  lemma CanonicalKeyIff(s: string, n: int)
    ensures CanonicalKey(s) == Some(n) <==> s == IntText(n)
  {
    if s == IntText(n) {
      IntCastOfIntText(n);
    }
  }

  function TrimLeft(s: string): (r: string)
    ensures |r| <= |s| && r == s[|s| - |r|..]
    ensures r == [] || !IsTrimSpace(r[0])
    ensures forall i :: 0 <= i < |s| - |r| ==> IsTrimSpace(s[i])
  {
    if |s| > 0 && IsTrimSpace(s[0]) then TrimLeft(s[1..]) else s
  }

  function TrimRight(s: string): (r: string)
    ensures |r| <= |s| && r == s[..|r|]
    ensures r == [] || !IsTrimSpace(r[|r| - 1])
    ensures forall i :: |r| <= i < |s| ==> IsTrimSpace(s[i])
  {
    if |s| > 0 && IsTrimSpace(s[|s| - 1]) then TrimRight(s[..|s| - 1]) else s
  }

  /** `trim($s)`: `s` without its leading and trailing trim characters. */
  function Trim(s: string): string {
    TrimRight(TrimLeft(s))
  }

  /** `trim($s) == ''`. */
  predicate Blank(s: string) {
    Trim(s) == ""
  }

  /** A string is blank exactly when every character is one `trim()` removes. */
  lemma BlankIff(s: string)
    ensures Blank(s) <==> forall i :: 0 <= i < |s| ==> IsTrimSpace(s[i])
  {
    var l := TrimLeft(s);
    if !forall i :: 0 <= i < |s| ==> IsTrimSpace(s[i]) {
      var j :| 0 <= j < |s| && !IsTrimSpace(s[j]);
      assert l[j - (|s| - |l|)] == s[j];
    }
  }

  /** `substr_count($s, $c)` for a one-character needle. */
  function Count(s: string, c: char): (n: nat)
    ensures n == 0 <==> c !in s
    ensures n <= |s|
  {
    if |s| == 0 then 0 else (if s[0] == c then 1 else 0) + Count(s[1..], c)
  }

  lemma {:induction false} CountAppend(a: string, b: string, c: char)
    ensures Count(a + b, c) == Count(a, c) + Count(b, c)
  {
    if |a| > 0 {
      CountAppend(a[1..], b, c);
      assert (a + b)[1..] == a[1..] + b;
    } else {
      assert a + b == b;
    }
  }

  /** `strpos($s, $c)` when the character occurs: its first position. */
  function IndexOf(s: string, c: char): (i: nat)
    requires c in s
    ensures i < |s| && s[i] == c && c !in s[..i]
  {
    if s[0] == c then 0 else
      assert c in s[1..];
      var j := IndexOf(s[1..], c);
      assert s[..j + 1] == [s[0]] + s[1..][..j];
      j + 1
  }

  /** `explode($sep, $s)`: the pieces of `s` between occurrences of `sep`. */
  function Explode(s: string, sep: char): (parts: seq<string>)
    ensures |parts| >= 1
    ensures forall i :: 0 <= i < |parts| ==> sep !in parts[i]
    decreases |s|
  {
    if sep !in s then [s]
    else
      var i := IndexOf(s, sep);
      [s[..i]] + Explode(s[i + 1..], sep)
  }

  /** `implode($sep, $parts)` for a non-empty list. */
  function Implode(parts: seq<string>, sep: char): string
    requires |parts| >= 1
  {
    if |parts| == 1 then parts[0] else parts[0] + [sep] + Implode(parts[1..], sep)
  }

  /** Exploding and imploding with the same separator gives the text back. */
  lemma {:induction false} ImplodeExplode(s: string, sep: char)
    ensures Implode(Explode(s, sep), sep) == s
    decreases |s|
  {
    if sep in s {
      var i := IndexOf(s, sep);
      var tail := Explode(s[i + 1..], sep);
      ImplodeExplode(s[i + 1..], sep);
      ExplodeStep(s, sep);
      assert ([s[..i]] + tail)[1..] == tail;
      assert Implode([s[..i]] + tail, sep) == s[..i] + [sep] + s[i + 1..];
      assert s == s[..i] + [sep] + s[i + 1..];
    }
  }

  /** The first separator of a piece free of it followed by the separator is
      the one right after the piece. */
  lemma IndexOfAfterPiece(a: string, rest: string, sep: char)
    requires sep !in a
    ensures sep in a + [sep] + rest
    ensures IndexOf(a + [sep] + rest, sep) == |a|
    ensures (a + [sep] + rest)[..|a|] == a
    ensures (a + [sep] + rest)[|a| + 1..] == rest
  {
    var s := a + [sep] + rest;
    assert s[|a|] == sep;
    assert s[..|a|] == a;
  }

  /** Exploding text that holds the separator splits off the piece before
      its first occurrence. */
  lemma ExplodeStep(s: string, sep: char)
    requires sep in s
    ensures Explode(s, sep) == [s[..IndexOf(s, sep)]] + Explode(s[IndexOf(s, sep) + 1..], sep)
  {
  }

  /** Imploding pieces free of the separator and exploding again gives the
      same pieces. */
  lemma {:induction false} ExplodeImplode(parts: seq<string>, sep: char)
    requires |parts| >= 1
    requires forall i :: 0 <= i < |parts| ==> sep !in parts[i]
    ensures Explode(Implode(parts, sep), sep) == parts
    decreases |parts|
  {
    if |parts| > 1 {
      var a := parts[0];
      var rest := Implode(parts[1..], sep);
      var s := Implode(parts, sep);
      assert s == a + [sep] + rest;
      ExplodeImplode(parts[1..], sep);
      IndexOfAfterPiece(a, rest, sep);
      ExplodeStep(s, sep);
      assert parts == [a] + parts[1..];
    }
  }

  /** Two separator-free pieces joined by the separator explode back into
      those two pieces. */
  lemma ExplodeOneSeparator(a: string, b: string, sep: char)
    requires sep !in a && sep !in b
    ensures Explode(a + [sep] + b, sep) == [a, b]
  {
    ExplodeImplode([a, b], sep);
    assert Implode([a, b], sep) == a + [sep] + Implode([b], sep);
  }
}
