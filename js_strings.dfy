/**
 * The pieces of JavaScript's string and number conversions that the
 * application relies on: `split`/`join` on one separator character,
 * `includes`, `toLowerCase`/`toUpperCase`, `trim`, `padStart`, decimal
 * rendering of integers, `parseInt`, `parseFloat` and `Number(...)`.
 * A string is a sequence of Unicode scalar values (Dafny's `char`), one
 * per character of the text; no text here needs surrogate pairs.
 */
module JsStrings {
  import opened Wrappers

  // ---------------------------------------------------------------- digits

  predicate IsDigit(c: char) { '0' <= c <= '9' }

  predicate AllDigits(s: string) { forall i :: 0 <= i < |s| ==> IsDigit(s[i]) }

  function DigitValue(c: char): nat
    requires IsDigit(c)
  {
    c as int - '0' as int
  }

  function DigitChar(d: nat): (c: char)
    requires d < 10
    ensures IsDigit(c) && DigitValue(c) == d
  {
    ('0' as int + d) as char
  }

  /** The value of a decimal digit string, most significant digit first ("" is 0). */
  function DigitsToNat(s: string): nat
    requires AllDigits(s)
    decreases |s|
  {
    if |s| == 0 then 0 else 10 * DigitsToNat(s[..|s| - 1]) + DigitValue(s[|s| - 1])
  }

  function Pow10(k: nat): (r: nat)
    ensures r >= 1
  {
    if k == 0 then 1 else 10 * Pow10(k - 1)
  }

  /** `String(n)` for a non-negative integer: shortest decimal digits. */
  function NatToString(n: nat): (r: string)
    ensures |r| > 0 && AllDigits(r)
    ensures DigitsToNat(r) == n
    ensures |r| > 1 ==> r[0] != '0'
    decreases n
  {
    if n < 10 then [DigitChar(n)]
    else
      var r := NatToString(n / 10) + [DigitChar(n % 10)];
      assert r[..|r| - 1] == NatToString(n / 10);
      r
  }

  /** `String(i)` for any integer. */
  function IntToString(i: int): string {
    if i < 0 then "-" + NatToString(-i) else NatToString(i)
  }

  lemma {:induction false} DigitsToNatAppend(a: string, b: string)
    requires AllDigits(a) && AllDigits(b)
    ensures AllDigits(a + b)
    ensures DigitsToNat(a + b) == DigitsToNat(a) * Pow10(|b|) + DigitsToNat(b)
    decreases |b|
  {
    assert forall i :: 0 <= i < |a + b| ==> (a + b)[i] == if i < |a| then a[i] else b[i - |a|];
    if |b| == 0 {
      assert a + b == a;
    } else {
      var b' := b[..|b| - 1];
      assert (a + b)[..|a + b| - 1] == a + b';
      DigitsToNatAppend(a, b');
      DigitsStep(DigitsToNat(a), Pow10(|b'|), DigitsToNat(b'), DigitValue(b[|b| - 1]));
    }
  }

  lemma DigitsStep(x: nat, p: nat, y: nat, d: nat)
    ensures 10 * (x * p + y) + d == x * (10 * p) + (10 * y + d)
  {
  }

  /** Leading zeros do not change the value of a digit string. */
  lemma {:induction false} DigitsToNatLeadingZero(s: string)
    requires AllDigits(s)
    ensures AllDigits("0" + s) && DigitsToNat("0" + s) == DigitsToNat(s)
  {
    DigitsToNatAppend("0", s);
  }

  // ------------------------------------------------------- search & split

  /** `s.indexOf(c)`: the first position of `c`, or -1. */
  function IndexOf(s: string, c: char): (i: int)
    ensures -1 <= i < |s|
    ensures i == -1 <==> c !in s
    ensures 0 <= i ==> s[i] == c && c !in s[..i]
  {
    if |s| == 0 then -1
    else if s[0] == c then 0
    else
      var j := IndexOf(s[1..], c);
      assert s[1..][..if j < 0 then 0 else j] == s[1..1 + (if j < 0 then 0 else j)];
      if j < 0 then -1 else 1 + j
  }

  /** `s.split(sep)` for a one-character separator. */
  function Split(s: string, sep: char): (parts: seq<string>)
    ensures |parts| >= 1
    ensures forall k :: 0 <= k < |parts| ==> sep !in parts[k]
    decreases |s|
  {
    var i := IndexOf(s, sep);
    if i < 0 then [s] else [s[..i]] + Split(s[i + 1..], sep)
  }

  /** `parts.join(sep)` for a one-character separator. */
  function Join(parts: seq<string>, sep: char): string
    decreases |parts|
  {
    if |parts| == 0 then ""
    else if |parts| == 1 then parts[0]
    else parts[0] + [sep] + Join(parts[1..], sep)
  }

  /** Splitting and re-joining on the same separator gives the string back. */
  lemma {:induction false} JoinSplit(s: string, sep: char)
    ensures Join(Split(s, sep), sep) == s
    decreases |s|
  {
    var i := IndexOf(s, sep);
    if i >= 0 {
      var a, b := s[..i], s[i + 1..];
      assert s == a + [sep] + b;
      SplitAt(a, sep, b);
      JoinSplit(b, sep);
      JoinCons(a, Split(b, sep), sep);
    }
  }

  lemma JoinCons(a: string, rest: seq<string>, sep: char)
    requires |rest| >= 1
    ensures Join([a] + rest, sep) == a + [sep] + Join(rest, sep)
  {
    assert ([a] + rest)[0] == a;
    assert ([a] + rest)[1..] == rest;
  }

  /** Joining parts free of the separator and splitting again gives the parts back. */
  lemma {:induction false} SplitJoin(parts: seq<string>, sep: char)
    requires |parts| >= 1
    requires forall k :: 0 <= k < |parts| ==> sep !in parts[k]
    ensures Split(Join(parts, sep), sep) == parts
    decreases |parts|
  {
    if |parts| > 1 {
      var s := Join(parts, sep);
      var p0 := parts[0];
      var t := Join(parts[1..], sep);
      assert s == p0 + [sep] + t;
      IndexOfPrefix(p0, sep, t);
      assert s[..|p0|] == p0;
      assert s[|p0| + 1..] == t;
      SplitJoin(parts[1..], sep);
      assert parts == [p0] + parts[1..];
    } else {
      assert Join(parts, sep) == parts[0];
    }
  }

  lemma {:induction false} IndexOfPrefix(p: string, c: char, t: string)
    requires c !in p
    ensures IndexOf(p + [c] + t, c) == |p|
    decreases |p|
  {
    if |p| == 0 {
      assert p + [c] + t == [c] + t;
    } else {
      assert (p + [c] + t)[1..] == p[1..] + [c] + t;
      IndexOfPrefix(p[1..], c, t);
    }
  }

  /** Splitting at the first separator: the text before it, then the parts of the rest. */
  lemma SplitAt(a: string, c: char, b: string)
    requires c !in a
    ensures Split(a + [c] + b, c) == [a] + Split(b, c)
  {
    var s := a + [c] + b;
    IndexOfPrefix(a, c, b);
    assert s[..|a|] == a;
    assert s[|a| + 1..] == b;
  }

  /** Two separator-free strings joined by the separator split back into the two. */
  lemma SplitTwo(a: string, c: char, b: string)
    requires c !in a && c !in b
    ensures Split(a + [c] + b, c) == [a, b]
  {
    SplitAt(a, c, b);
    SplitAbsent(b, c);
  }

  /** Three separator-free strings joined by the separator split back into the three. */
  lemma SplitThree(a: string, b: string, d: string, c: char)
    requires c !in a && c !in b && c !in d
    ensures Split(a + [c] + b + [c] + d, c) == [a, b, d]
  {
    AppendThree(a, b, d, c);
    SplitThreeRight(a, b, d, c);
  }

  lemma AppendThree(a: string, b: string, d: string, c: char)
    ensures a + [c] + b + [c] + d == a + [c] + (b + [c] + d)
  {
  }

  lemma SplitThreeRight(a: string, b: string, d: string, c: char)
    requires c !in a && c !in b && c !in d
    ensures Split(a + [c] + (b + [c] + d), c) == [a, b, d]
  {
    SplitAt(a, c, b + [c] + d);
    SplitTwo(b, c, d);
    assert [a] + [b, d] == [a, b, d];
  }

  /** A digit string holds no character that is not a digit. */
  lemma DigitsExclude(x: string, c: char)
    requires AllDigits(x) && !IsDigit(c)
    ensures c !in x
  {
    forall i | 0 <= i < |x| ensures x[i] != c {
    }
  }

  /** A character in none of three strings, nor the separator, is not in their join. */
  lemma JoinedExclude(a: string, b: string, d: string, sep: char, x: char)
    requires x !in a && x !in b && x !in d && x != sep
    ensures x !in a + [sep] + b + [sep] + d
  {
    var s := a + [sep] + b + [sep] + d;
    forall i | 0 <= i < |s| ensures s[i] != x {
      if i < |a| {
        assert s[i] == a[i];
      } else if i == |a| || i == |a| + 1 + |b| {
      } else if i < |a| + 1 + |b| {
        assert s[i] == b[i - |a| - 1];
      } else {
        assert s[i] == d[i - |a| - |b| - 2];
      }
    }
  }

  /** A string without the separator splits into itself alone. */
  lemma SplitAbsent(s: string, c: char)
    requires c !in s
    ensures Split(s, c) == [s]
  {
  }

  /** The first part of a split is a prefix of the string. */
  lemma SplitHead(s: string, c: char)
    ensures Split(s, c)[0] <= s
  {
  }

  /** `s.includes(sub)`. */
  function Includes(s: string, sub: string): bool
    decreases |s|
  {
    sub <= s || (|s| > 0 && Includes(s[1..], sub))
  }

  // ----------------------------------------------------------------- case

  /**
   * `toLowerCase` on one character, for ASCII and Latin-1 letters only.
   * The Latin-1 block maps U+00C0..U+00DE (except U+00D7) onto U+00E0..U+00FE.
   * Every other character is left as it is, although JavaScript maps the
   * letters of the other Unicode blocks too.
   */
  function LowerChar(c: char): char {
    if 'A' <= c <= 'Z' || ('À' <= c <= 'Þ' && c != '×') then (c as int + 32) as char
    else c
  }

  /**
   * `toUpperCase` on one character, the inverse of LowerChar. It is exact for
   * ASCII and for the Latin-1 letters other than U+00DF (sharp s, which
   * JavaScript upper-cases to the two letters "SS"), U+00B5 (micro sign, to
   * U+039C) and U+00FF (y diaeresis, to U+0178); those three, and every
   * character outside Latin-1, are left as they are.
   */
  function UpperChar(c: char): char {
    if 'a' <= c <= 'z' || ('à' <= c <= 'þ' && c != '÷') then (c as int - 32) as char
    else c
  }

  function ToLower(s: string): (r: string)
    ensures |r| == |s|
    ensures forall i :: 0 <= i < |s| ==> r[i] == LowerChar(s[i])
  {
    seq(|s|, i requires 0 <= i < |s| => LowerChar(s[i]))
  }

  function ToUpper(s: string): (r: string)
    ensures |r| == |s|
    ensures forall i :: 0 <= i < |s| ==> r[i] == UpperChar(s[i])
  {
    seq(|s|, i requires 0 <= i < |s| => UpperChar(s[i]))
  }

  lemma LowerUpperChar(c: char)
    ensures LowerChar(UpperChar(c)) == LowerChar(c)
    ensures LowerChar(LowerChar(c)) == LowerChar(c)
  {
  }

  lemma ToLowerIdempotent(s: string)
    ensures ToLower(ToLower(s)) == ToLower(s)
  {
  }

  // ----------------------------------------------------------------- trim

  /** The characters `String.prototype.trim` removes (WhiteSpace and LineTerminator). */
  predicate IsJsSpace(c: char) {
    c == ' ' || c == '\t' || c == '\n' || c == '\r' || c == '\U{000B}' || c == '\U{000C}'
    || c == '\U{00A0}' || c == '\U{FEFF}' || c == '\U{1680}' || ('\U{2000}' <= c <= '\U{200A}')
    || c == '\U{2028}' || c == '\U{2029}' || c == '\U{202F}' || c == '\U{205F}' || c == '\U{3000}'
  }

  function TrimStart(s: string): (r: string)
    ensures r == [] || !IsJsSpace(r[0])
    ensures |r| <= |s|
    decreases |s|
  {
    if |s| > 0 && IsJsSpace(s[0]) then TrimStart(s[1..]) else s
  }

  function TrimEnd(s: string): (r: string)
    ensures r == [] || !IsJsSpace(r[|r| - 1])
    ensures |r| <= |s| && r == s[..|r|]
    decreases |s|
  {
    if |s| > 0 && IsJsSpace(s[|s| - 1]) then TrimEnd(s[..|s| - 1]) else s
  }

  /** `s.trim()`. */
  function Trim(s: string): (r: string)
    ensures r == [] || (!IsJsSpace(r[0]) && !IsJsSpace(r[|r| - 1]))
  {
    var t := TrimStart(s);
    var r := TrimEnd(t);
    assert r != [] ==> r[0] == t[0];
    r
  }

  /** `s.padStart(n, c)` with a one-character pad. */
  function PadStart(s: string, n: nat, c: char): (r: string)
    ensures |r| == if |s| >= n then |s| else n
    ensures r[|r| - |s|..] == s
    ensures forall i :: 0 <= i < |r| - |s| ==> r[i] == c
  {
    if |s| >= n then s else seq(n - |s|, _ => c) + s
  }

  // ----------------------------------------------------- number parsing

  /** The longest run of decimal digits at the start of `s`. */
  function LeadingDigits(s: string): (r: string)
    ensures AllDigits(r) && r <= s
    ensures |r| < |s| ==> !IsDigit(s[|r|])
    decreases |s|
  {
    if |s| > 0 && IsDigit(s[0]) then [s[0]] + LeadingDigits(s[1..]) else []
  }

  predicate IsHexDigit(c: char) { IsDigit(c) || 'a' <= c <= 'f' || 'A' <= c <= 'F' }

  function HexValue(c: char): nat
    requires IsHexDigit(c)
  {
    if IsDigit(c) then DigitValue(c)
    else if 'a' <= c <= 'f' then c as int - 'a' as int + 10
    else c as int - 'A' as int + 10
  }

  function LeadingHex(s: string): (r: string)
    ensures r <= s
    ensures forall i :: 0 <= i < |r| ==> IsHexDigit(r[i])
    decreases |s|
  {
    if |s| > 0 && IsHexDigit(s[0]) then [s[0]] + LeadingHex(s[1..]) else []
  }

  function HexToNat(s: string): nat
    requires forall i :: 0 <= i < |s| ==> IsHexDigit(s[i])
    decreases |s|
  {
    if |s| == 0 then 0 else 16 * HexToNat(s[..|s| - 1]) + HexValue(s[|s| - 1])
  }

  /**
   * `parseInt(s)` without a radix: leading white space is skipped, an optional
   * sign is read, a `0x`/`0X` prefix selects base 16, and the longest digit
   * prefix is converted. None stands for NaN (no digit at all).
   */
  function ParseInt(s: string): Option<int>
  {
    var t := TrimStart(s);
    var magnitude := ParseUnsigned(StripSign(t));
    if magnitude.None? then None
    else if |t| > 0 && t[0] == '-' then Some(-(magnitude.value as int))
    else Some(magnitude.value)
  }

  /** The string after one optional leading `+` or `-`. */
  function StripSign(t: string): (u: string)
    ensures |u| <= |t| && u == t[|t| - |u|..]
  {
    if |t| > 0 && (t[0] == '-' || t[0] == '+') then t[1..] else t
  }

  /** The digits part of parseInt: base 16 after `0x`/`0X`, else base 10. */
  function ParseUnsigned(u: string): Option<nat>
  {
    if |u| >= 2 && u[0] == '0' && (u[1] == 'x' || u[1] == 'X') then
      var h := LeadingHex(u[2..]);
      if |h| == 0 then None else Some(HexToNat(h))
    else
      var d := LeadingDigits(u);
      if |d| == 0 then None else Some(DigitsToNat(d))
  }

  lemma TrimStartDigit(s: string)
    requires |s| > 0 && IsDigit(s[0])
    ensures TrimStart(s) == s
  {
  }

  lemma TrimEndDigit(s: string)
    requires |s| > 0 && IsDigit(s[|s| - 1])
    ensures TrimEnd(s) == s
  {
  }

  /** `parseInt` on a plain digit string is its decimal value. */
  lemma ParseIntDigits(s: string)
    requires |s| > 0 && AllDigits(s)
    requires !(|s| >= 2 && s[1] == 'x')
    ensures ParseInt(s) == Some(DigitsToNat(s))
  {
    TrimStartDigit(s);
    assert StripSign(s) == s;
    ParseUnsignedDigits(s);
    assert s[0] != '-';
  }

  lemma ParseUnsignedDigits(s: string)
    requires |s| > 0 && AllDigits(s)
    ensures ParseUnsigned(s) == Some(DigitsToNat(s))
  {
    if |s| >= 2 {
      assert IsDigit(s[1]);
    }
    LeadingDigitsAll(s);
  }

  /** `parseInt` reads back a number written in decimal, with or without leading zeros. */
  lemma ParseIntPadded(n: nat, width: nat)
    ensures AllDigits(PadStart(NatToString(n), width, '0'))
    ensures ParseInt(PadStart(NatToString(n), width, '0')) == Some(n)
  {
    var s := PadStart(NatToString(n), width, '0');
    PadStartZerosValue(NatToString(n), width);
    ParseIntDigits(s);
  }

  lemma {:induction false} LeadingDigitsAll(s: string)
    requires AllDigits(s)
    ensures LeadingDigits(s) == s
    decreases |s|
  {
    if |s| > 0 {
      LeadingDigitsAll(s[1..]);
    }
  }

  /**
   * `Number(s)` (the ToNumber conversion) restricted to what the model
   * needs: after trimming, the empty string is 0 and a digit string is its
   * decimal value; every other form is None ("not modelled / NaN").
   */
  function ToNumber(s: string): (r: Option<nat>)
    ensures r.Some? && Trim(s) != [] ==> AllDigits(Trim(s)) && r.value == DigitsToNat(Trim(s))
  {
    var t := Trim(s);
    if |t| == 0 then Some(0)
    else if AllDigits(t) then Some(DigitsToNat(t))
    else None
  }

  /** `Number(...)` reads back what NatToString wrote, even after zero padding. */
  lemma ToNumberPadded(n: nat, width: nat)
    ensures ToNumber(PadStart(NatToString(n), width, '0')) == Some(n)
  {
    var p := PadStart(NatToString(n), width, '0');
    PadStartZerosValue(NatToString(n), width);
    TrimDigits(p);
  }

  /** Padding a digit string with zeros on the left keeps its value. */
  lemma PadStartZerosValue(s: string, width: nat)
    requires AllDigits(s)
    ensures AllDigits(PadStart(s, width, '0'))
    ensures DigitsToNat(PadStart(s, width, '0')) == DigitsToNat(s)
  {
    var p := PadStart(s, width, '0');
    var z := p[..|p| - |s|];
    assert p == z + s;
    assert forall i :: 0 <= i < |z| ==> z[i] == '0';
    ZerosValue(z);
    DigitsToNatAppend(z, s);
  }

  lemma TrimDigits(p: string)
    requires |p| > 0 && AllDigits(p)
    ensures Trim(p) == p
  {
    TrimStartDigit(p);
    TrimEndDigit(p);
  }

  lemma {:induction false} ZerosValue(z: string)
    requires forall i :: 0 <= i < |z| ==> z[i] == '0'
    ensures AllDigits(z) && DigitsToNat(z) == 0
    decreases |z|
  {
    if |z| > 0 {
      ZerosValue(z[..|z| - 1]);
    }
  }

  /**
   * `parseFloat(s)`: leading white space is skipped, then the longest prefix
   * of the form [sign] digits [. digits] (at least one digit) is read; an
   * exponent part and the word Infinity are not modelled. None stands for NaN.
   */
  function ParseFloat(s: string): Option<real>
  {
    var t := TrimStart(s);
    var magnitude := ParseDecimal(StripSign(t));
    if magnitude.None? then None
    else if |t| > 0 && t[0] == '-' then Some(-magnitude.value)
    else Some(magnitude.value)
  }

  /** The unsigned part of parseFloat: digits, then optionally `.` and digits. */
  function ParseDecimal(u: string): Option<real>
  {
    var intPart := LeadingDigits(u);
    var fracPart := FractionDigits(u[|intPart|..]);
    if |intPart| == 0 && |fracPart| == 0 then None
    else Some(DecimalValue(intPart, fracPart))
  }

  /** The digits right after a leading `.`, or none. */
  function FractionDigits(rest: string): (r: string)
    ensures AllDigits(r)
  {
    if |rest| > 0 && rest[0] == '.' then LeadingDigits(rest[1..]) else []
  }

  function DecimalValue(intPart: string, fracPart: string): real
    requires AllDigits(intPart) && AllDigits(fracPart)
  {
    DigitsToNat(intPart) as real + DigitsToNat(fracPart) as real / Pow10(|fracPart|) as real
  }

  /** parseFloat of "<digits>.<digits>" is the decimal value it spells. */
  lemma ParseFloatDecimal(a: string, b: string)
    requires AllDigits(a) && AllDigits(b) && |a| > 0
    ensures ParseFloat(a + "." + b) == Some(DecimalValue(a, b))
  {
    var s := a + "." + b;
    assert s == a + ("." + b);
    TrimStartDigit(s);
    assert StripSign(s) == s;
    LeadingDigitsStops(a, "." + b);
    assert s[|a|..] == "." + b;
    assert ("." + b)[1..] == b;
    LeadingDigitsAll(b);
    assert FractionDigits(s[|a|..]) == b;
  }

  lemma {:induction false} LeadingDigitsStops(a: string, t: string)
    requires AllDigits(a)
    requires |t| > 0 && !IsDigit(t[0])
    ensures LeadingDigits(a + t) == a
    decreases |a|
  {
    if |a| == 0 {
      assert a + t == t;
    } else {
      assert (a + t)[1..] == a[1..] + t;
      LeadingDigitsStops(a[1..], t);
    }
  }

  // ------------------------------------------------------ replacements

  /** `s.replace(/\D/g, '')`: the decimal digits of `s`, in order. */
  function OnlyDigits(s: string): (r: string)
    ensures AllDigits(r) && |r| <= |s|
    decreases |s|
  {
    if |s| == 0 then [] else (if IsDigit(s[0]) then [s[0]] else []) + OnlyDigits(s[1..])
  }

  lemma {:induction false} OnlyDigitsAppend(a: string, b: string)
    ensures OnlyDigits(a + b) == OnlyDigits(a) + OnlyDigits(b)
    decreases |a|
  {
    if |a| == 0 {
      assert a + b == b;
    } else {
      var h := if IsDigit(a[0]) then [a[0]] else [];
      assert (a + b)[0] == a[0];
      assert (a + b)[1..] == a[1..] + b;
      OnlyDigitsAppend(a[1..], b);
      assert OnlyDigits(a + b) == h + (OnlyDigits(a[1..]) + OnlyDigits(b));
      assert OnlyDigits(a) == h + OnlyDigits(a[1..]);
      assert h + (OnlyDigits(a[1..]) + OnlyDigits(b)) == (h + OnlyDigits(a[1..])) + OnlyDigits(b);
    }
  }

  /** A digit string is left as it is. */
  lemma {:induction false} OnlyDigitsOfDigits(s: string)
    requires AllDigits(s)
    ensures OnlyDigits(s) == s
    decreases |s|
  {
    if |s| > 0 {
      OnlyDigitsOfDigits(s[1..]);
    }
  }

  /** Cleaning twice is cleaning once. */
  lemma OnlyDigitsIdempotent(s: string)
    ensures OnlyDigits(OnlyDigits(s)) == OnlyDigits(s)
  {
    OnlyDigitsOfDigits(OnlyDigits(s));
  }

  /** `s.replace(/c/g, '')` for a literal character `c`. */
  function Remove(s: string, c: char): (r: string)
    ensures |r| <= |s| && forall i :: 0 <= i < |r| ==> r[i] != c
    decreases |s|
  {
    if |s| == 0 then [] else (if s[0] == c then [] else [s[0]]) + Remove(s[1..], c)
  }

  lemma {:induction false} RemoveAppend(a: string, b: string, c: char)
    ensures Remove(a + b, c) == Remove(a, c) + Remove(b, c)
    decreases |a|
  {
    if |a| == 0 {
      assert a + b == b;
    } else {
      var t := a[1..];
      assert (a + b)[0] == a[0];
      assert (a + b)[1..] == t + b;
      RemoveAppend(t, b, c);
      if a[0] == c {
        assert Remove(a + b, c) == Remove(t + b, c);
        assert Remove(a, c) == Remove(t, c);
      } else {
        var h := [a[0]];
        assert Remove(a + b, c) == h + (Remove(t, c) + Remove(b, c));
        assert Remove(a, c) == h + Remove(t, c);
      }
    }
  }

  lemma {:induction false} RemoveAbsent(s: string, c: char)
    requires c !in s
    ensures Remove(s, c) == s
    decreases |s|
  {
    if |s| > 0 {
      RemoveAbsent(s[1..], c);
    }
  }

  /** `s.replace(c, d)` with a string pattern: only the first occurrence is replaced. */
  function ReplaceFirst(s: string, c: char, d: char): (r: string)
    ensures |r| == |s|
    decreases |s|
  {
    if |s| == 0 then []
    else if s[0] == c then [d] + s[1..]
    else [s[0]] + ReplaceFirst(s[1..], c, d)
  }

  lemma {:induction false} ReplaceFirstAt(a: string, b: string, c: char, d: char)
    requires c !in a
    ensures ReplaceFirst(a + [c] + b, c, d) == a + [d] + b
    decreases |a|
  {
    if |a| == 0 {
      assert a + [c] + b == [c] + b;
    } else {
      assert (a + [c] + b)[1..] == a[1..] + [c] + b;
      ReplaceFirstAt(a[1..], b, c, d);
    }
  }
}
