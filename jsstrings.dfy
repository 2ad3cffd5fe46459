/**
 * The JavaScript string built-ins the codec relies on: `join`, `split` with
 * a one-character separator, `${n}` for a non-negative integer and
 * `parseInt` without a radix. Strings are sequences of characters.
 */
module JsStrings {
  import opened Wrappers

  /** `parts.join(d)`. */
  function Join(parts: seq<string>, d: char): string
  {
    if |parts| == 0 then ""
    else if |parts| == 1 then parts[0]
    else parts[0] + [d] + Join(parts[1..], d)
  }

  /** `s.split(d)`: never empty, no piece contains `d`, and joining the pieces gives `s` back. */
  function Split(s: string, d: char): (r: seq<string>)
    ensures |r| >= 1
    ensures forall i :: 0 <= i < |r| ==> d !in r[i]
    ensures Join(r, d) == s
  {
    if |s| == 0 then [""]
    else
      var rest := Split(s[1..], d);
      if s[0] == d then
        var r := [""] + rest;
        assert r[1..] == rest;
        assert s == [d] + s[1..];
        r
      else
        var r := [[s[0]] + rest[0]] + rest[1..];
        assert r[1..] == rest[1..];
        assert s == [s[0]] + s[1..];
        r
  }

  /** Every character of `s` belongs to `allowed`. */
  predicate CharsIn(s: string, allowed: set<char>) {
    forall i :: 0 <= i < |s| ==> s[i] in allowed
  }

  lemma {:induction false} JoinChars(parts: seq<string>, d: char, allowed: set<char>)
    requires d in allowed
    requires forall k :: 0 <= k < |parts| ==> CharsIn(parts[k], allowed)
    ensures CharsIn(Join(parts, d), allowed)
  {
    if |parts| > 1 {
      JoinChars(parts[1..], d, allowed);
    }
  }

  lemma {:induction false} JoinNonEmpty(parts: seq<string>, d: char)
    requires |parts| >= 1 && |parts[0]| >= 1
    ensures |Join(parts, d)| >= 1
  {
  }

  lemma {:induction false} SplitNoSeparator(s: string, d: char)
    requires d !in s
    ensures Split(s, d) == [s]
  {
    if |s| > 0 {
      SplitNoSeparator(s[1..], d);
      assert [s[0]] + s[1..] == s;
    }
  }

  /** One step of `split`: a leading separator opens a new piece, any other character joins the first. */
  lemma SplitCons(c: char, s: string, d: char)
    ensures var rest := Split(s, d);
            Split([c] + s, d) == if c == d then [""] + rest else [[c] + rest[0]] + rest[1..]
  {
    assert ([c] + s)[1..] == s;
  }

  /** The step of `SplitCons` commutes with appending further pieces. */
  lemma ConsPieces(c: char, d: char, head: seq<string>, rest: seq<string>)
    requires |head| >= 1
    ensures var both := head + rest;
            (if c == d then [""] + both else [[c] + both[0]] + both[1..])
            == (if c == d then [""] + head else [[c] + head[0]] + head[1..]) + rest
  {
    var both := head + rest;
    assert both[0] == head[0];
    assert both[1..] == head[1..] + rest;
  }

  /** Splitting distributes over a separator between two strings. */
  lemma {:induction false} SplitAppend(a: string, t: string, d: char)
    ensures Split(a + [d] + t, d) == Split(a, d) + Split(t, d)
  {
    if |a| == 0 {
      assert a + [d] + t == [d] + t;
      SplitCons(d, t, d);
      assert Split(a, d) == [""];
    } else {
      var tail := a[1..] + [d] + t;
      assert a + [d] + t == [a[0]] + tail;
      assert a == [a[0]] + a[1..];
      SplitCons(a[0], tail, d);
      SplitCons(a[0], a[1..], d);
      SplitAppend(a[1..], t, d);
      ConsPieces(a[0], d, Split(a[1..], d), Split(t, d));
    }
  }

  lemma {:induction false} JoinAppend(parts: seq<string>, last: string, d: char)
    requires |parts| >= 1
    ensures Join(parts + [last], d) == Join(parts, d) + [d] + last
  {
    if |parts| == 1 {
      assert (parts + [last])[1..] == [last];
    } else {
      assert (parts + [last])[1..] == parts[1..] + [last];
      JoinAppend(parts[1..], last, d);
    }
  }

  /** Splitting a join gives the parts back when no part contains the separator. */
  lemma {:induction false} SplitJoin(parts: seq<string>, d: char)
    requires |parts| >= 1
    requires forall k :: 0 <= k < |parts| ==> d !in parts[k]
    ensures Split(Join(parts, d), d) == parts
  {
    if |parts| == 1 {
      SplitNoSeparator(parts[0], d);
    } else {
      SplitJoin(parts[1..], d);
      SplitAppend(parts[0], Join(parts[1..], d), d);
      SplitNoSeparator(parts[0], d);
      assert [parts[0]] + parts[1..] == parts;
    }
  }

  predicate IsDigit(c: char) {
    '0' <= c <= '9'
  }

  const Digits: set<char> := set c | '0' <= c <= '9'

  function DigitChar(n: nat): (c: char)
    requires n < 10
    ensures IsDigit(c)
  {
    ('0' as int + n) as char
  }

  /** `${n}` for a non-negative integer: its decimal numeral. */
  function NatToString(n: nat): (r: string)
    ensures |r| >= 1
    ensures forall i :: 0 <= i < |r| ==> IsDigit(r[i])
  {
    if n < 10 then [DigitChar(n)] else NatToString(n / 10) + [DigitChar(n % 10)]
  }

  lemma NatToStringChars(n: nat)
    ensures CharsIn(NatToString(n), Digits)
  {
  }

  /** JavaScript's StrWhiteSpaceChar: white space and line terminators. */
  predicate IsWhitespace(c: char) {
    var x := c as int;
    x == 0x09 || x == 0x0A || x == 0x0B || x == 0x0C || x == 0x0D || x == 0x20
    || x == 0xA0 || x == 0x1680 || (0x2000 <= x <= 0x200A) || x == 0x2028
    || x == 0x2029 || x == 0x202F || x == 0x205F || x == 0x3000 || x == 0xFEFF
  }

  /** `s` without its leading white space. */
  function TrimStart(s: string): (r: string)
    ensures |r| <= |s| && r == s[|s| - |r|..]
    ensures |r| > 0 ==> !IsWhitespace(r[0])
  {
    if |s| > 0 && IsWhitespace(s[0]) then TrimStart(s[1..]) else s
  }

  /** The value of a character as a base-36 digit (0-9, then a-z or A-Z), or 36 if it is none. */
  function DigitValue(c: char): nat
  {
    if '0' <= c <= '9' then c as int - '0' as int
    else if 'a' <= c <= 'z' then c as int - 'a' as int + 10
    else if 'A' <= c <= 'Z' then c as int - 'A' as int + 10
    else 36
  }

  /** The longest prefix of `s` made of digits of base `radix`. */
  function DigitPrefix(s: string, radix: nat): (r: string)
    ensures |r| <= |s| && r == s[..|r|]
    ensures forall i :: 0 <= i < |r| ==> DigitValue(r[i]) < radix
    ensures |r| < |s| ==> DigitValue(s[|r|]) >= radix
  {
    if |s| > 0 && DigitValue(s[0]) < radix then [s[0]] + DigitPrefix(s[1..], radix) else ""
  }

  /** The number a numeral of base `radix` denotes, most significant digit first. */
  function NumeralValue(digits: string, radix: nat): nat
  {
    if |digits| == 0 then 0
    else NumeralValue(digits[..|digits| - 1], radix) * radix + DigitValue(digits[|digits| - 1])
  }

  /**
   * `parseInt(s)` without a radix: leading white space is skipped, a sign
   * is read, `0x`/`0X` selects base 16, and the longest run of digits that
   * follows is the number; with no digit the result is NaN (`None`).
   */
  function ParseInt(s: string): Option<int>
  {
    var t := TrimStart(s);
    if |t| > 0 && t[0] == '-' then
      match ParseUnsigned(t[1..])
      case None => None
      case Some(m) => Some(-(m as int))
    else if |t| > 0 && t[0] == '+' then Widen(ParseUnsigned(t[1..]))
    else Widen(ParseUnsigned(t))
  }

  function Widen(r: Option<nat>): Option<int> {
    match r
    case None => None
    case Some(m) => Some(m)
  }

  /** The magnitude part of `parseInt`: an optional hexadecimal prefix, then digits. */
  function ParseUnsigned(u: string): (r: Option<nat>)
  {
    if |u| >= 2 && u[0] == '0' && (u[1] == 'x' || u[1] == 'X') then
      var digits := DigitPrefix(u[2..], 16);
      if |digits| == 0 then None else Some(NumeralValue(digits, 16))
    else
      var digits := DigitPrefix(u, 10);
      if |digits| == 0 then None else Some(NumeralValue(digits, 10))
  }

  lemma {:induction false} NumeralOfNatToString(n: nat)
    ensures NumeralValue(NatToString(n), 10) == n
  {
    var r := NatToString(n);
    if n >= 10 {
      assert r[..|r| - 1] == NatToString(n / 10);
      NumeralOfNatToString(n / 10);
    }
  }

  lemma {:induction false} DigitPrefixAll(s: string, radix: nat)
    requires forall i :: 0 <= i < |s| ==> DigitValue(s[i]) < radix
    ensures DigitPrefix(s, radix) == s
  {
    if |s| > 0 {
      DigitPrefixAll(s[1..], radix);
      assert [s[0]] + s[1..] == s;
    }
  }

  /** `parseInt` reads back what `${n}` writes. */
  lemma ParseIntNatToString(n: nat)
    ensures ParseInt(NatToString(n)) == Some(n)
  {
    ParseIntDigits(NatToString(n));
    NumeralOfNatToString(n);
  }

  /** `parseInt` reads a minus sign followed by `${n}` as the negative number. */
  lemma ParseIntNegative(n: nat)
    ensures ParseInt("-" + NatToString(n)) == Some(-(n as int))
  {
    var numeral := NatToString(n);
    var s := "-" + numeral;
    assert !IsWhitespace(s[0]);
    assert TrimStart(s) == s;
    assert s[1..] == numeral;
    ParseUnsignedDigits(numeral);
    NumeralOfNatToString(n);
  }

  /** A nonempty run of decimal digits is read as the decimal number it denotes. */
  lemma ParseIntDigits(s: string)
    requires |s| >= 1 && forall i :: 0 <= i < |s| ==> IsDigit(s[i])
    ensures ParseInt(s) == Some(NumeralValue(s, 10))
  {
    assert !IsWhitespace(s[0]);
    assert TrimStart(s) == s;
    ParseUnsignedDigits(s);
  }

  lemma ParseUnsignedDigits(s: string)
    requires |s| >= 1 && forall i :: 0 <= i < |s| ==> IsDigit(s[i])
    ensures ParseUnsigned(s) == Some(NumeralValue(s, 10))
  {
    assert |s| >= 2 ==> s[1] != 'x' && s[1] != 'X';
    assert forall i :: 0 <= i < |s| ==> DigitValue(s[i]) < 10;
    DigitPrefixAll(s, 10);
  }

  /** `s` is empty or starts with something other than a sign, white space or a digit. */
  predicate NotNumeric(s: string) {
    |s| == 0 || (DigitValue(s[0]) >= 10 && !IsWhitespace(s[0]) && s[0] != '-' && s[0] != '+')
  }

  /** Any string that does not start with a sign, white space or a digit is NaN to `parseInt`. */
  lemma ParseIntNaN(s: string)
    requires NotNumeric(s)
    ensures ParseInt(s) == None
  {
  }
}
