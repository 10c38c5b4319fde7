/**
 * Text conversions the services rely on: the decimal text of an integer
 * (JavaScript's Number#toString for integers), JavaScript's parseInt with no
 * radix, String#split on one character, and joining with a separator.
 */
module Text {
  import opened Results

  predicate IsDigit(c: char) { '0' <= c <= '9' }

  predicate AllDigits(s: string) { forall i :: 0 <= i < |s| ==> IsDigit(s[i]) }

  function DigitChar(d: int): (c: char)
    requires 0 <= d < 10
    ensures IsDigit(c) && DigitValue(c) == d
  {
    ('0' as int + d) as char
  }

  /** The value of a hexadecimal digit (either case); 99 for anything else. */
  function DigitValue(c: char): int
  {
    if '0' <= c <= '9' then c as int - '0' as int
    else if 'a' <= c <= 'f' then c as int - 'a' as int + 10
    else if 'A' <= c <= 'F' then c as int - 'A' as int + 10
    else 99
  }

  /** Decimal text of a natural number, without leading zeros. */
  function NatToString(n: nat): (s: string)
    ensures |s| > 0 && AllDigits(s)
    ensures s[0] == '0' ==> n == 0 && |s| == 1
    decreases n
  {
    if n < 10 then [DigitChar(n)] else NatToString(n / 10) + [DigitChar(n % 10)]
  }

  /** Decimal text of an integer, with a leading '-' when negative. */
  function IntToString(n: int): (s: string)
  {
    if n < 0 then "-" + NatToString(-n) else NatToString(n)
  }

  /** The whitespace parseInt skips (the ASCII part of it). */
  predicate IsSpace(c: char)
  {
    c == ' ' || c == '\t' || c == '\n' || c == '\r' || c as int == 11 || c as int == 12
  }

  function SkipSpaces(s: string): string
  {
    if |s| > 0 && IsSpace(s[0]) then SkipSpaces(s[1..]) else s
  }

  /** Length of the leading run of digits of the given radix. */
  function DigitRun(s: string, radix: int): (n: nat)
    ensures n <= |s|
  {
    if |s| > 0 && DigitValue(s[0]) < radix then 1 + DigitRun(s[1..], radix) else 0
  }

  /** The value of a run of digits, most significant first. */
  function DigitsValue(s: string, radix: int): int
  {
    if |s| == 0 then 0 else DigitsValue(s[..|s| - 1], radix) * radix + DigitValue(s[|s| - 1])
  }

  /** The digits at the head of s, read in the given radix; None when there are none. */
  function ReadDigits(s: string, radix: int): Option<int>
  {
    var n := DigitRun(s, radix);
    if n == 0 then None else Some(DigitsValue(s[..n], radix))
  }

  predicate HasHexPrefix(u: string)
  {
    |u| >= 2 && u[0] == '0' && (u[1] == 'x' || u[1] == 'X')
  }

  /** parseInt after the sign: a "0x"/"0X" prefix selects radix 16. */
  function ReadMagnitude(u: string): Option<int>
  {
    if HasHexPrefix(u) then ReadDigits(u[2..], 16) else ReadDigits(u, 10)
  }

  function AfterSign(t: string): string
  {
    if |t| > 0 && (t[0] == '-' || t[0] == '+') then t[1..] else t
  }

  /**
   * JavaScript's parseInt(s) with no radix: leading whitespace is skipped, one
   * sign is read, a "0x"/"0X" prefix selects radix 16, and the longest run of
   * digits is read; None stands for NaN (no digit at all).
   */
  function ParseInt(s: string): Option<int>
  {
    var t := SkipSpaces(s);
    match ReadMagnitude(AfterSign(t))
    case None => None
    case Some(v) => Some(if |t| > 0 && t[0] == '-' then -v else v)
  }

  lemma {:induction false} DigitsValueOfNatToString(n: nat)
    ensures DigitsValue(NatToString(n), 10) == n
    decreases n
  {
    var s := NatToString(n);
    if n >= 10 {
      DigitsValueOfNatToString(n / 10);
      assert s[..|s| - 1] == NatToString(n / 10);
    }
  }

  /** The digit run of a text made only of decimal digits is the whole text. */
  lemma {:induction false} DigitRunOfDigits(s: string)
    requires AllDigits(s)
    ensures DigitRun(s, 10) == |s|
    decreases |s|
  {
    if |s| > 0 {
      assert IsDigit(s[0]);
      assert AllDigits(s[1..]) by {
        forall i | 0 <= i < |s| - 1
          ensures IsDigit(s[1..][i])
        {
          assert s[1..][i] == s[i + 1];
        }
      }
      DigitRunOfDigits(s[1..]);
    }
  }

  lemma ReadDigitsOfDigits(s: string)
    requires |s| > 0 && AllDigits(s)
    ensures ReadDigits(s, 10) == Some(DigitsValue(s, 10))
  {
    DigitRunOfDigits(s);
    assert s[..|s|] == s;
  }

  lemma DigitsNeedNoSkipping(s: string)
    requires |s| > 0 && AllDigits(s)
    ensures SkipSpaces(s) == s && AfterSign(s) == s && !HasHexPrefix(s)
  {
    assert IsDigit(s[0]);
    assert |s| >= 2 ==> IsDigit(s[1]);
  }

  /** parseInt of a non-empty run of decimal digits. */
  lemma ParseIntOfDigits(s: string)
    requires |s| > 0 && AllDigits(s)
    ensures ParseInt(s) == Some(DigitsValue(s, 10))
  {
    DigitsNeedNoSkipping(s);
    ReadDigitsOfDigits(s);
  }

  /** parseInt of a text that starts with a minus sign negates what follows it. */
  lemma ParseIntOfMinus(t: string)
    requires |t| > 0 && t[0] == '-'
    ensures ParseInt(t) == match ReadMagnitude(t[1..]) case None => None case Some(v) => Some(-v)
  {
    assert SkipSpaces(t) == t;
  }

  lemma ReadMagnitudeOfDigits(s: string)
    requires |s| > 0 && AllDigits(s)
    ensures ReadMagnitude(s) == Some(DigitsValue(s, 10))
  {
    DigitsNeedNoSkipping(s);
    ReadDigitsOfDigits(s);
  }

  /** parseInt of a minus sign followed by a non-empty run of decimal digits. */
  lemma ParseIntOfNegativeDigits(t: string)
    requires |t| > 1 && t[0] == '-' && AllDigits(t[1..])
    ensures ParseInt(t) == Some(-DigitsValue(t[1..], 10))
  {
    ParseIntOfMinus(t);
    ReadMagnitudeOfDigits(t[1..]);
  }

  /** parseInt of a text that starts with neither a space, a sign nor a digit is NaN. */
  lemma ParseIntOfNonDigit(s: string)
    requires |s| > 0 && !IsSpace(s[0]) && s[0] != '-' && s[0] != '+' && DigitValue(s[0]) >= 10
    ensures ParseInt(s) == None
  {
    assert SkipSpaces(s) == s;
    assert AfterSign(s) == s;
    assert !HasHexPrefix(s);
    assert DigitRun(s, 10) == 0;
  }

  /** parseInt reads back exactly the integer whose decimal text it is given. */
  lemma ParseIntOfIntToString(n: int)
    ensures ParseInt(IntToString(n)) == Some(n)
  {
    if n < 0 {
      DigitsValueOfNatToString(-n);
      assert IntToString(n)[1..] == NatToString(-n);
      ParseIntOfNegativeDigits(IntToString(n));
    } else {
      DigitsValueOfNatToString(n);
      ParseIntOfDigits(NatToString(n));
    }
  }

  /** Two decimal digits, the form of each field of an "HH:mm" clock text. */
  function TwoDigits(n: int): (s: string)
    requires 0 <= n < 100
  {
    [DigitChar(n / 10), DigitChar(n % 10)]
  }

  lemma ParseIntOfDigitPair(s: string, n: int)
    requires 0 <= n < 100 && |s| == 2 && AllDigits(s)
    requires DigitValue(s[0]) == n / 10 && DigitValue(s[1]) == n % 10
    ensures ParseInt(s) == Some(n)
  {
    ParseIntOfDigits(s);
    assert s[..1][..0] == [];
    assert DigitsValue(s[..1], 10) == n / 10;
    assert DigitsValue(s, 10) == (n / 10) * 10 + n % 10;
  }

  /** parseInt reads a zero-padded two-digit field as its value ("09" is 9). */
  lemma ParseIntOfTwoDigits(n: int)
    requires 0 <= n < 100
    ensures ParseInt(TwoDigits(n)) == Some(n)
  {
    ParseIntOfDigitPair(TwoDigits(n), n);
  }

  lemma IntToStringHasNo(n: int, c: char)
    requires c != '-' && !IsDigit(c)
    ensures c !in IntToString(n)
  {
    var s := IntToString(n);
    forall i | 0 <= i < |s|
      ensures s[i] != c
    {
      if n < 0 && i > 0 {
        assert s[i] == NatToString(-n)[i - 1];
      }
    }
  }

  /** Position of the first occurrence of c, or |s| when there is none. */
  function IndexOf(s: string, c: char): (i: nat)
    ensures i <= |s|
    ensures i < |s| ==> s[i] == c
    ensures forall j :: 0 <= j < i ==> s[j] != c
  {
    if |s| == 0 then 0 else if s[0] == c then 0 else 1 + IndexOf(s[1..], c)
  }

  /** JavaScript's String#split with a one-character separator. */
  function Split(s: string, sep: char): (parts: seq<string>)
    ensures |parts| >= 1
    decreases |s|
  {
    var i := IndexOf(s, sep);
    if i == |s| then [s] else [s[..i]] + Split(s[i + 1..], sep)
  }

  /** Array#join with a one-character separator. */
  function Join(parts: seq<string>, sep: char): string
  {
    if |parts| == 0 then ""
    else if |parts| == 1 then parts[0]
    else parts[0] + [sep] + Join(parts[1..], sep)
  }

  lemma {:induction false} IndexOfPrefix(p: string, sep: char, rest: string)
    requires sep !in p
    ensures IndexOf(p + [sep] + rest, sep) == |p|
    decreases |p|
  {
    var s := p + [sep] + rest;
    if |p| > 0 {
      assert s[1..] == p[1..] + [sep] + rest;
      IndexOfPrefix(p[1..], sep, rest);
    }
  }

  /** Splitting a joined list gives the list back when no part holds the separator. */
  lemma {:induction false} SplitJoin(parts: seq<string>, sep: char)
    requires |parts| >= 1
    requires forall k :: 0 <= k < |parts| ==> sep !in parts[k]
    ensures Split(Join(parts, sep), sep) == parts
    decreases |parts|
  {
    if |parts| == 1 {
      var s := parts[0];
      assert IndexOf(s, sep) == |s|;
    } else {
      var rest := Join(parts[1..], sep);
      var s := parts[0] + [sep] + rest;
      IndexOfPrefix(parts[0], sep, rest);
      assert s[..|parts[0]|] == parts[0];
      assert s[|parts[0]| + 1..] == rest;
      SplitJoin(parts[1..], sep);
      assert [parts[0]] + parts[1..] == parts;
    }
  }
}
