/** The slice of the Python runtime the host scripts rely on: optional values,
    raised exceptions as results, and the `str` operations used to parse
    serial text (`strip`, `split`, `startswith`, `in`, `lower`, `int()`). */
module Py {

  datatype Option<+T> = None | Some(value: T)

  /** The Python exceptions the host code raises or catches. */
  datatype PyError =
    | ValueError
    | IndexError
    | StructError
    | AttributeError
    | UnicodeDecodeError
    | ConnectionError
    | SerialException

  /** A call that either returns a value or raises. */
  datatype Result<+T> = Ok(value: T) | Err(error: PyError)

  /** An object attribute that `hasattr`/`getattr` may find missing. */
  datatype Attr<+T> = Missing | Present(value: T)

  // ---------------------------------------------------------------------
  // Whitespace and strip()

  /** The ASCII characters for which Python's `str.isspace()` holds. */
  predicate IsSpace(c: char) {
    // tab, line feed, vertical tab, form feed, carriage return;
    // the four information separators; space
    9 <= c as int <= 13 || 28 <= c as int <= 32
  }

  function StripLeft(s: string): (r: string)
    ensures |r| <= |s|
    ensures r == s[|s| - |r|..]
    ensures forall i :: 0 <= i < |s| - |r| ==> IsSpace(s[i])
    ensures |r| > 0 ==> !IsSpace(r[0])
  {
    if |s| > 0 && IsSpace(s[0]) then StripLeft(s[1..]) else s
  }

  function StripRight(s: string): (r: string)
    ensures |r| <= |s|
    ensures r == s[..|r|]
    ensures forall i :: |r| <= i < |s| ==> IsSpace(s[i])
    ensures |r| > 0 ==> !IsSpace(r[|r| - 1])
  {
    if |s| > 0 && IsSpace(s[|s| - 1]) then StripRight(s[..|s| - 1]) else s
  }

  /** No whitespace at either end. */
  predicate Trimmed(s: string) {
    |s| > 0 ==> !IsSpace(s[0]) && !IsSpace(s[|s| - 1])
  }

  /** `s.strip()`: leading and trailing whitespace removed. */
  function Strip(s: string): (r: string)
    ensures |r| <= |s|
    ensures Trimmed(r)
  {
    StripRight(StripLeft(s))
  }

  /** A string with no whitespace at either end is its own strip. */
  lemma StripUnchanged(s: string)
    requires Trimmed(s)
    ensures Strip(s) == s
  {
  }

  /** Stripping a stripped string changes nothing. */
  lemma StripIdempotent(s: string)
    ensures Strip(Strip(s)) == Strip(s)
  {
    StripUnchanged(Strip(s));
  }

  // ---------------------------------------------------------------------
  // Prefixes, substrings, case

  /** `s.startswith(prefix)`. */
  predicate StartsWith(s: string, prefix: string) {
    |prefix| <= |s| && s[..|prefix|] == prefix
  }

  /** `sub in s`. */
  predicate Contains(s: string, sub: string)
    decreases |s|
  {
    StartsWith(s, sub) || (|s| > 0 && Contains(s[1..], sub))
  }

  /** A prefix of a string is contained in it. */
  lemma StartsWithContains(s: string, sub: string)
    requires StartsWith(s, sub)
    ensures Contains(s, sub)
  {
  }

  /** `c.lower()` for ASCII letters. */
  function LowerChar(c: char): (r: char)
    ensures 'A' <= c <= 'Z' ==> r as int == c as int + 32
    ensures !('A' <= c <= 'Z') ==> r == c
  {
    if 'A' <= c <= 'Z' then (c as int + 32) as char else c
  }

  /** `s.lower()` (ASCII letters only). */
  function Lower(s: string): (r: string)
    ensures |r| == |s|
    ensures forall i :: 0 <= i < |s| ==> r[i] == LowerChar(s[i])
  {
    if s == [] then [] else [LowerChar(s[0])] + Lower(s[1..])
  }

  /** Lower-casing twice is lower-casing once. */
  lemma LowerIdempotent(s: string)
    ensures Lower(Lower(s)) == Lower(s)
  {
  }

  // ---------------------------------------------------------------------
  // split()

  /** `s.split(sep)` for a one-character separator: the fields between
      separators, always at least one. */
  function Split(s: string, sep: char): (r: seq<string>)
    ensures |r| >= 1
    decreases |s|
  {
    if |s| == 0 then [""]
    else if s[0] == sep then [""] + Split(s[1..], sep)
    else
      var rest := Split(s[1..], sep);
      [[s[0]] + rest[0]] + rest[1..]
  }

  /** A string without the separator splits into itself alone. */
  lemma {:induction false} SplitNoSep(s: string, sep: char)
    requires sep !in s
    ensures Split(s, sep) == [s]
    decreases |s|
  {
    if |s| > 0 {
      SplitNoSep(s[1..], sep);
      assert [s[0]] + s[1..] == s;
    }
  }

  /** Splitting `p + sep + rest`, where `p` holds no separator, gives `p`
      followed by the fields of `rest`. */
  lemma {:induction false} SplitAfterPrefix(p: string, sep: char, rest: string)
    requires sep !in p
    ensures Split(p + [sep] + rest, sep) == [p] + Split(rest, sep)
    decreases |p|
  {
    var s := p + [sep] + rest;
    if |p| == 0 {
      assert s == [sep] + rest;
      assert s[1..] == rest;
    } else {
      assert s[0] == p[0];
      assert s[1..] == p[1..] + [sep] + rest;
      SplitAfterPrefix(p[1..], sep, rest);
      assert [p[0]] + p[1..] == p;
    }
  }

  /** `s.split(sep)[k]`, raising IndexError when there are too few fields. */
  function SplitField(s: string, sep: char, k: nat): (r: Result<string>)
    ensures r.Ok? <==> k < |Split(s, sep)|
    ensures r.Ok? ==> r.value == Split(s, sep)[k]
  {
    var fields := Split(s, sep);
    if k < |fields| then Ok(fields[k]) else Err(IndexError)
  }

  // ---------------------------------------------------------------------
  // Decimal text and int()

  predicate IsDigit(c: char) { '0' <= c <= '9' }

  predicate AllDigits(s: string) { forall i :: 0 <= i < |s| ==> IsDigit(s[i]) }

  /** The value of a run of decimal digits, most significant first. */
  function DigitsValue(s: string): (v: nat)
    requires AllDigits(s)
    decreases |s|
  {
    if s == [] then 0
    else DigitsValue(s[..|s| - 1]) * 10 + (s[|s| - 1] as int - '0' as int)
  }

  function DigitChar(d: nat): (c: char)
    requires d < 10
    ensures IsDigit(c) && c as int - '0' as int == d
  {
    ('0' as int + d) as char
  }

  /** `str(n)` in Python, `Serial.print(n)` in the firmware: the shortest
      decimal text of a natural number. */
  function Decimal(n: nat): (s: string)
    ensures |s| >= 1 && AllDigits(s)
    ensures n > 0 ==> s[0] != '0'
    decreases n
  {
    if n < 10 then [DigitChar(n)] else Decimal(n / 10) + [DigitChar(n % 10)]
  }

  /** Reading back decimal text gives the number that was written. */
  lemma {:induction false} DecimalValue(n: nat)
    ensures DigitsValue(Decimal(n)) == n
    decreases n
  {
    var s := Decimal(n);
    if n >= 10 {
      DecimalValue(n / 10);
      assert s[..|s| - 1] == Decimal(n / 10);
    }
  }

  /** The digit part of an integer literal as `int()` reads it: ASCII
      digits, where a single underscore may separate two digits. */
  predicate IntDigits(t: string) {
    && |t| > 0 && IsDigit(t[0]) && IsDigit(t[|t| - 1])
    && (forall i :: 0 <= i < |t| ==> IsDigit(t[i]) || t[i] == '_')
    && (forall i :: 0 <= i < |t| - 1 ==> t[i] == '_' ==> t[i + 1] != '_')
  }

  /** The digits of `t` with its underscores left out. */
  function DropUnderscores(t: string): (u: string)
    ensures (forall i :: 0 <= i < |t| ==> IsDigit(t[i]) || t[i] == '_') ==> AllDigits(u)
    ensures AllDigits(t) ==> u == t
  {
    if t == [] then []
    else (if t[0] == '_' then [] else [t[0]]) + DropUnderscores(t[1..])
  }

  /** Python's `int(s)` on text: surrounding whitespace is ignored, and an
      optional sign is followed by ASCII digits, single underscores allowed
      between two digits; anything else raises ValueError. */
  function ParseInt(s: string): (r: Result<int>)
    ensures var t := Strip(s);
      var signed := |t| > 0 && (t[0] == '+' || t[0] == '-');
      r.Ok? <==> IntDigits(if signed then t[1..] else t)
    ensures r.Err? ==> r.error == ValueError
    ensures AllDigits(Strip(s)) && |Strip(s)| > 0 ==> r == Ok(DigitsValue(Strip(s)))
    ensures Strip(s) == [] ==> r == Err(ValueError)
  {
    var t := Strip(s);
    var signed := |t| > 0 && (t[0] == '+' || t[0] == '-');
    var body := if signed then t[1..] else t;
    if IntDigits(body) then
      var magnitude: int := DigitsValue(DropUnderscores(body));
      Ok(if signed && t[0] == '-' then -magnitude else magnitude)
    else Err(ValueError)
  }

  /** `int("1_0") == 10`: an underscore between two digits is skipped. */
  lemma UnderscoreBetweenDigits()
    ensures ParseInt("1_0") == Ok(10)
  {
    var t := "1_0";
    StripUnchanged(t);
    assert IntDigits(t) by {
      assert t[0] == '1' && t[1] == '_' && t[2] == '0';
    }
    assert DropUnderscores(t) == "10" by {
      assert t[1..] == "_0" && t[1..][1..] == "0" && t[1..][1..][1..] == [];
    }
    assert DigitsValue("10") == 10 by {
      assert "10"[..1] == "1" && "1"[..0] == [];
    }
  }

  /** A leading underscore is a ValueError. */
  lemma LeadingUnderscore()
    ensures ParseInt("_1") == Err(ValueError)
  {
    var t := "_1";
    StripUnchanged(t);
    assert t[0] == '_' && !IsDigit(t[0]);
  }

  /** A trailing underscore is a ValueError. */
  lemma TrailingUnderscore()
    ensures ParseInt("1_") == Err(ValueError)
  {
    var t := "1_";
    StripUnchanged(t);
    assert t[0] == '1' && t[1] == '_' && !IsDigit(t[|t| - 1]);
  }

  /** Two underscores in a row are a ValueError. */
  lemma DoubledUnderscore()
    ensures ParseInt("1__0") == Err(ValueError)
  {
    var t := "1__0";
    StripUnchanged(t);
    assert t[0] == '1' && t[1] == '_' && t[2] == '_';
  }

  /** `int(str(n)) == n`. */
  lemma ParseDecimal(n: nat)
    ensures ParseInt(Decimal(n)) == Ok(n)
  {
    var s := Decimal(n);
    StripUnchanged(s);
    DecimalValue(n);
  }
}
