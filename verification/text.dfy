/**
 * The engine's string conversions that the configuration code relies on:
 * `FString::StartsWith` (case-insensitive by default), `RightChop`,
 * `FCString::Atoi`, `FCString::Atof` and `FString::ToBool`. Numbers are
 * read as the C runtime reads them: leading white space, an optional
 * sign, then as many digits as follow; anything else reads as 0.
 */
module Text {
  import opened Util

  /** `FString::StartsWith(prefix)` with the engine's default, case-insensitive comparison. */
  predicate StartsWithIgnoreCase(s: string, prefix: string)
  {
    |prefix| <= |s| && EqualsIgnoreCase(s[..|prefix|], prefix)
  }

  /** `FString::RightChop(n)`: everything after the first `n` characters, or nothing. */
  function RightChop(s: string, n: nat): (r: string)
    ensures n <= |s| ==> |r| == |s| - n && r == s[n..]
    ensures n >= |s| ==> r == ""
  {
    if n >= |s| then "" else s[n..]
  }

  /** A key that starts with `prefix` loses exactly that prefix to `RightChop`. */
  lemma ChopPrefix(prefix: string, id: string)
    ensures StartsWithIgnoreCase(prefix + id, prefix)
    ensures RightChop(prefix + id, |prefix|) == id
  {
    assert (prefix + id)[..|prefix|] == prefix;
    assert (prefix + id)[|prefix|..] == id;
  }

  /** A string cannot begin with two words that differ, up to case, at the same position. */
  lemma LetterApart(key: string, p: string, w: string, i: nat)
    requires i < |p| && i < |w| && Lower(p[i]) != Lower(w[i])
    ensures !(StartsWithIgnoreCase(key, p) && StartsWithIgnoreCase(key, w))
    ensures !(StartsWithIgnoreCase(key, p) && EqualsIgnoreCase(key, w))
  {
    if StartsWithIgnoreCase(key, p) {
      assert key[..|p|][i] == key[i];
    }
    if StartsWithIgnoreCase(key, w) {
      assert key[..|w|][i] == key[i];
    }
  }

  predicate IsSpace(c: char)
  {
    c == ' ' || c == '\t' || c == '\n' || c == '\r' || c == '\U{0B}' || c == '\U{0C}'
  }

  predicate IsDigit(c: char)
  {
    '0' <= c <= '9'
  }

  predicate AllDigits(s: string)
  {
    forall i :: 0 <= i < |s| ==> IsDigit(s[i])
  }

  /** `s` without its leading white space. */
  function SkipSpace(s: string): (r: string)
    ensures |r| <= |s| && r == s[|s| - |r|..]
    ensures r != [] ==> !IsSpace(r[0])
  {
    if s != [] && IsSpace(s[0]) then SkipSpace(s[1..]) else s
  }

  /** The longest prefix of `s` made of digits. */
  function LeadingDigits(s: string): (r: string)
    ensures r <= s && AllDigits(r)
    ensures |r| < |s| ==> !IsDigit(s[|r|])
  {
    if s != [] && IsDigit(s[0]) then [s[0]] + LeadingDigits(s[1..]) else []
  }

  /** The value of a string of decimal digits, most significant first. */
  function DigitsValue(s: string): (n: nat)
    requires AllDigits(s)
  {
    if s == [] then 0 else 10 * DigitsValue(s[..|s| - 1]) + (s[|s| - 1] as int - '0' as int)
  }

  /** `FCString::Atoi`: optional white space and sign, then the leading digits; 0 when there are none. */
  function Atoi(s: string): int
  {
    var t := SkipSpace(s);
    if t != [] && t[0] == '-' then 0 - DigitsValue(LeadingDigits(t[1..]))
    else if t != [] && t[0] == '+' then DigitsValue(LeadingDigits(t[1..]))
    else DigitsValue(LeadingDigits(t))
  }

  /** The digits after the point, read as a fraction in [0, 1). */
  function FractionValue(s: string): (r: real)
    requires AllDigits(s)
    ensures 0.0 <= r < 1.0
  {
    if s == [] then 0.0
    else ((s[0] as int - '0' as int) as real + FractionValue(s[1..])) / 10.0
  }

  /** The unsigned part of a decimal number: integer digits, then an optional point and fraction digits. */
  function UnsignedDecimal(t: string): (r: real)
    ensures r >= 0.0
  {
    var whole := LeadingDigits(t);
    var rest := t[|whole|..];
    if rest != [] && rest[0] == '.' then DigitsValue(whole) as real + FractionValue(LeadingDigits(rest[1..]))
    else DigitsValue(whole) as real
  }

  /** `FCString::Atof` on plain decimal notation: optional white space and sign, digits, an optional fraction. */
  function Atof(s: string): real
  {
    var t := SkipSpace(s);
    if t != [] && t[0] == '-' then -UnsignedDecimal(t[1..])
    else if t != [] && t[0] == '+' then UnsignedDecimal(t[1..])
    else UnsignedDecimal(t)
  }

  /** `FString::ToBool`: true, yes or on (any case) is true; false, no or off is false; otherwise a non-zero `Atoi`. */
  function ToBool(s: string): (b: bool)
    ensures EqualsIgnoreCase(s, "true") || EqualsIgnoreCase(s, "yes") || EqualsIgnoreCase(s, "on") ==> b
    ensures EqualsIgnoreCase(s, "false") || EqualsIgnoreCase(s, "no") || EqualsIgnoreCase(s, "off") ==> !b
  {
    BoolWordsApart(s);
    if EqualsIgnoreCase(s, "true") || EqualsIgnoreCase(s, "yes") || EqualsIgnoreCase(s, "on") then true
    else if EqualsIgnoreCase(s, "false") || EqualsIgnoreCase(s, "no") || EqualsIgnoreCase(s, "off") then false
    else Atoi(s) != 0
  }

  /** No string reads both as a true word and as a false word. */
  lemma BoolWordsApart(s: string)
    ensures !((EqualsIgnoreCase(s, "true") || EqualsIgnoreCase(s, "yes") || EqualsIgnoreCase(s, "on")) &&
              (EqualsIgnoreCase(s, "false") || EqualsIgnoreCase(s, "no") || EqualsIgnoreCase(s, "off")))
  {
    if |s| > 0 {
      assert EqualsIgnoreCase(s, "yes") ==> Lower(s[0]) == 'y';
      assert EqualsIgnoreCase(s, "off") ==> Lower(s[0]) == 'o';
      assert EqualsIgnoreCase(s, "on") ==> Lower(s[0]) == 'o';
      assert EqualsIgnoreCase(s, "no") ==> Lower(s[0]) == 'n';
    }
  }

  function DigitChar(d: nat): (c: char)
    requires d < 10
    ensures IsDigit(c) && c as int - '0' as int == d
  {
    ('0' as int + d) as char
  }

  /** The decimal rendering of a natural number, without leading zeros. */
  function DecimalString(n: nat): (s: string)
    ensures s != [] && AllDigits(s)
  {
    if n < 10 then [DigitChar(n)] else DecimalString(n / 10) + [DigitChar(n % 10)]
  }

  /** The decimal rendering of an integer, with a minus sign when negative. */
  function IntString(n: int): (s: string)
  {
    if n < 0 then "-" + DecimalString(-n) else DecimalString(n)
  }

  lemma {:induction false} DecimalStringValue(n: nat)
    ensures DigitsValue(DecimalString(n)) == n
  {
    var s := DecimalString(n);
    if n >= 10 {
      assert s[..|s| - 1] == DecimalString(n / 10);
      DecimalStringValue(n / 10);
    }
  }

  lemma {:induction false} LeadingDigitsOfDigits(s: string, rest: string)
    requires AllDigits(s)
    requires rest == [] || !IsDigit(rest[0])
    ensures LeadingDigits(s + rest) == s
  {
    if s != [] {
      assert (s + rest)[1..] == s[1..] + rest;
      LeadingDigitsOfDigits(s[1..], rest);
    } else {
      assert s + rest == rest;
    }
  }

  /** A non-empty digit string is its own leading digits and loses no white space. */
  lemma DigitsAreRead(d: string)
    requires d != [] && AllDigits(d)
    ensures SkipSpace(d) == d && LeadingDigits(d) == d
    ensures SkipSpace("-" + d) == "-" + d && ("-" + d)[1..] == d
  {
    LeadingDigitsOfDigits(d, []);
    assert d + [] == d;
    assert !IsSpace(d[0]);
    assert ("-" + d)[1..] == d;
  }

  /** A non-empty digit string, bare or after a minus sign, reads as its value. */
  lemma ReadDigits(d: string)
    requires d != [] && AllDigits(d)
    ensures Atoi(d) == DigitsValue(d) && Atoi("-" + d) == 0 - DigitsValue(d)
  {
    DigitsAreRead(d);
  }

  /** The same reading by `Atof`, which finds no point after the digits. */
  lemma ReadDigitsReal(d: string)
    requires d != [] && AllDigits(d)
    ensures Atof(d) == DigitsValue(d) as real && Atof("-" + d) == -(DigitsValue(d) as real)
  {
    DigitsAreRead(d);
    assert d[|d|..] == [];
    assert UnsignedDecimal(d) == DigitsValue(d) as real;
  }

  /** `Atoi` reads back every integer from its decimal rendering. */
  lemma AtoiReadsIntString(n: int)
    ensures Atoi(IntString(n)) == n
  {
    DecimalStringValue(if n < 0 then -n else n);
    ReadDigits(DecimalString(if n < 0 then -n else n));
  }

  /** `Atof` reads back every integer from its decimal rendering. */
  lemma AtofReadsIntString(n: int)
    ensures Atof(IntString(n)) == n as real
  {
    DecimalStringValue(if n < 0 then -n else n);
    ReadDigitsReal(DecimalString(if n < 0 then -n else n));
  }

  /** A string with no digit after its sign reads as 0, whether `Atoi` or `Atof` reads it. */
  lemma NoDigitsReadZero(s: string)
    requires s == [] || (!IsDigit(s[0]) && !IsSpace(s[0]) && s[0] != '-' && s[0] != '+' && s[0] != '.')
    ensures Atoi(s) == 0 && Atof(s) == 0.0
  {
    assert SkipSpace(s) == s;
    assert LeadingDigits(s) == [];
    assert s[|LeadingDigits(s)|..] == s;
  }

  /** `FString::Contains(sub)`, ignoring case as the engine does by default. */
  predicate ContainsIgnoreCase(s: string, sub: string)
  {
    exists i :: 0 <= i <= |s| && StartsWithIgnoreCase(s[i..], sub)
  }

  /**
   * `FString::Replace(from, to)` with the engine's default, case-insensitive
   * search: scanning left to right, each occurrence of `from` becomes `to`
   * and the scan resumes after it; an empty `from` changes nothing.
   */
  function Replace(s: string, from: string, to: string): string
    decreases |s|
  {
    if from == [] || s == [] then s
    else if StartsWithIgnoreCase(s, from) then to + Replace(s[|from|..], from, to)
    else [s[0]] + Replace(s[1..], from, to)
  }

  /** `"{" + key + "}"`, the placeholder of a template variable. */
  function Placeholder(key: string): (p: string)
    ensures |p| == |key| + 2 && p[0] == '{'
  {
    "{" + key + "}"
  }

  lemma LowerBrace(c: char)
    ensures Lower(c) == '{' <==> c == '{'
  {
  }

  /** Text without an opening brace holds no placeholder, so replacing one leaves it as it is. */
  lemma {:induction false} ReplaceNoBrace(s: string, key: string, to: string)
    requires '{' !in s
    ensures Replace(s, Placeholder(key), to) == s
  {
    if s != [] {
      LowerBrace(s[0]);
      assert !StartsWithIgnoreCase(s, Placeholder(key)) by {
        if |Placeholder(key)| <= |s| {
          assert s[..|Placeholder(key)|][0] == s[0];
        }
      }
      assert '{' !in s[1..];
      ReplaceNoBrace(s[1..], key, to);
    }
  }

  /** After brace-free text, a placeholder is replaced by its value and the scan goes on behind it. */
  lemma {:induction false} ReplacePlaceholder(a: string, key: string, to: string, b: string)
    requires '{' !in a
    ensures Replace(a + Placeholder(key) + b, Placeholder(key), to) == a + to + Replace(b, Placeholder(key), to)
  {
    var p := Placeholder(key);
    var s := a + p + b;
    if a == [] {
      assert s == p + b;
      assert s[..|p|] == p;
      IgnoreCaseEquivalence();
      assert s[|p|..] == b;
    } else {
      LowerBrace(a[0]);
      assert !StartsWithIgnoreCase(s, p) by {
        assert s[..|p|][0] == a[0];
      }
      assert s[1..] == a[1..] + p + b;
      assert '{' !in a[1..];
      ReplacePlaceholder(a[1..], key, to, b);
    }
  }

  /** `FString::Join(xs, ",")`. */
  function JoinComma(xs: seq<string>): string
  {
    if xs == [] then ""
    else if |xs| == 1 then xs[0]
    else xs[0] + "," + JoinComma(xs[1..])
  }

  /** The pieces of `s` between commas, empty pieces included. */
  function CommaPieces(s: string): (r: seq<string>)
    ensures |r| >= 1
  {
    if s == [] then [""]
    else
      var rest := CommaPieces(s[1..]);
      if s[0] == ',' then [""] + rest else [[s[0]] + rest[0]] + rest[1..]
  }

  /** `FString::ParseIntoArray(out, ",", true)`: the pieces between commas, empty ones culled. */
  function ParseCommaList(s: string): seq<string>
  {
    NonEmpty(CommaPieces(s))
  }

  function NonEmpty(xs: seq<string>): (r: seq<string>)
    ensures forall i :: 0 <= i < |r| ==> r[i] != ""
  {
    if xs == [] then [] else if xs[0] == "" then NonEmpty(xs[1..]) else [xs[0]] + NonEmpty(xs[1..])
  }

  /** `s` without its trailing white space. */
  function TrimEnd(s: string): (r: string)
    ensures r <= s
  {
    if s != [] && IsSpace(s[|s| - 1]) then TrimEnd(s[..|s| - 1]) else s
  }

  /** `FString::TrimStartAndEnd`. */
  function Trim(s: string): string
  {
    TrimEnd(SkipSpace(s))
  }

  /** An element that a comma list can carry unchanged: not empty, no comma, no white space at either end. */
  predicate PlainElement(x: string)
  {
    x != "" && ',' !in x && !IsSpace(x[0]) && !IsSpace(x[|x| - 1])
  }

  lemma PlainIsTrimmed(x: string)
    requires PlainElement(x)
    ensures Trim(x) == x
  {
  }

  lemma {:induction false} PiecesAfterElement(x: string, rest: string)
    requires ',' !in x
    ensures CommaPieces(x + "," + rest) == [x] + CommaPieces(rest)
    ensures CommaPieces(x) == [x]
  {
    if x == [] {
      assert x + "," + rest == [','] + rest;
      assert ([','] + rest)[1..] == rest;
    } else {
      assert (x + "," + rest)[1..] == x[1..] + "," + rest;
      assert ',' !in x[1..];
      PiecesAfterElement(x[1..], rest);
      assert [x[0]] + x[1..] == x;
    }
  }

  /** Joining elements with commas and parsing the result gives the pieces back. */
  lemma {:induction false} PiecesOfJoin(xs: seq<string>)
    requires xs != [] && forall i :: 0 <= i < |xs| ==> ',' !in xs[i]
    ensures CommaPieces(JoinComma(xs)) == xs
  {
    if |xs| == 1 {
      PiecesAfterElement(xs[0], "");
    } else {
      PiecesAfterElement(xs[0], JoinComma(xs[1..]));
      PiecesOfJoin(xs[1..]);
    }
  }

  lemma {:induction false} NonEmptyKeepsFull(xs: seq<string>)
    requires forall i :: 0 <= i < |xs| ==> xs[i] != ""
    ensures NonEmpty(xs) == xs
  {
    if xs != [] {
      NonEmptyKeepsFull(xs[1..]);
    }
  }
}
