/**
 * The parts of java.lang that the rate limiter relies on, stated with Java's
 * own semantics: fixed-width integers, division that truncates toward zero,
 * String.valueOf for integers, String.split on a single character,
 * String.trim and String.equalsIgnoreCase; and the helpers (a decimal reader,
 * the position of a first occurrence) in whose terms they are specified.
 */
module JavaLang {
  import opened Wrappers

  /** Java `int` and `long`. */
  type Int32 = x: int | -0x8000_0000 <= x < 0x8000_0000
  type Int64 = x: int | -0x8000_0000_0000_0000 <= x < 0x8000_0000_0000_0000

  // ---------------------------------------------------------------------------
  // Integer division

  /**
   * Java's `a / 1000` on a `long`: the quotient is rounded toward zero, so a
   * negative dividend is not rounded down as Euclidean division would.
   */
  function DivThousand(a: int): (q: int)
    ensures a >= 0 ==> 0 <= q <= a && q * 1000 <= a < q * 1000 + 1000
    ensures a < 0 ==> a <= q <= 0 && q * 1000 - 1000 < a <= q * 1000
  {
    if a >= 0 then a / 1000 else -((-a) / 1000)
  }

  /** Truncating division by 1000 preserves order. */
  lemma DivThousandMonotone(a: int, b: int)
    requires a <= b
    ensures DivThousand(a) <= DivThousand(b)
  {
  }

  // ---------------------------------------------------------------------------
  // String.valueOf(int) and String.valueOf(long)

  predicate IsDigit(c: char) { '0' <= c <= '9' }

  function DigitChar(d: nat): (c: char)
    requires d < 10
    ensures IsDigit(c) && c as int - '0' as int == d
  {
    (d + '0' as int) as char
  }

  /** The decimal digits of `n`, most significant first, without leading zeros. */
  function NatDigits(n: nat): (s: string)
    ensures |s| >= 1
    ensures forall i :: 0 <= i < |s| ==> IsDigit(s[i])
    ensures s[0] == '0' <==> n == 0
    ensures n == 0 ==> s == "0"
    decreases n
  {
    if n < 10 then [DigitChar(n)] else NatDigits(n / 10) + [DigitChar(n % 10)]
  }

  /** Java's `String.valueOf(n)`: a minus sign for negative values, then the digits of the magnitude. */
  function ValueOf(n: int): (s: string)
    ensures |s| >= 1
    ensures s[0] == '-' <==> n < 0
  {
    if n < 0 then "-" + NatDigits(-n) else NatDigits(n)
  }

  /** The number denoted by a sequence of decimal digits. */
  function DigitsValue(s: string): nat
    requires forall i :: 0 <= i < |s| ==> IsDigit(s[i])
  {
    if s == [] then 0
    else
      assert IsDigit(s[|s| - 1]);
      DigitsValue(s[..|s| - 1]) * 10 + (s[|s| - 1] as int - '0' as int)
  }

  /** A reader for decimal integers: an optional minus sign followed by one or more digits. */
  function ParseDecimal(s: string): Option<int>
  {
    if |s| >= 1 && s[0] == '-' then
      var t := s[1..];
      if |t| >= 1 && forall i :: 0 <= i < |t| ==> IsDigit(t[i]) then Some(-(DigitsValue(t) as int)) else None
    else if |s| >= 1 && forall i :: 0 <= i < |s| ==> IsDigit(s[i]) then Some(DigitsValue(s))
    else None
  }

  lemma {:induction false} NatDigitsValue(n: nat)
    ensures DigitsValue(NatDigits(n)) == n
    decreases n
  {
    if n >= 10 {
      var s := NatDigits(n);
      NatDigitsValue(n / 10);
      assert s[..|s| - 1] == NatDigits(n / 10);
    }
  }

  /** Round trip: reading back the text `String.valueOf` produces gives the number. */
  lemma ValueOfRoundTrip(n: int)
    ensures ParseDecimal(ValueOf(n)) == Some(n)
  {
    var s := ValueOf(n);
    if n < 0 {
      var t := NatDigits(-n);
      NatDigitsValue(-n);
      assert s[0] == '-' && s[1..] == t;
      assert forall i :: 0 <= i < |t| ==> IsDigit(t[i]);
    } else {
      NatDigitsValue(n);
      assert s == NatDigits(n) && IsDigit(s[0]);
    }
  }

  /** Different numbers never share a decimal text. */
  lemma ValueOfInjective(m: int, n: int)
    requires ValueOf(m) == ValueOf(n)
    ensures m == n
  {
    ValueOfRoundTrip(m);
    ValueOfRoundTrip(n);
  }

  // ---------------------------------------------------------------------------
  // String.split on a one-character pattern

  /**
   * Specification helper: the index of the first `c` in `s`, or `|s|` when
   * there is none (unlike Java's `indexOf`, which answers -1).
   */
  function FirstIndex(s: string, c: char): (k: nat)
    ensures k <= |s|
    ensures c !in s[..k]
    ensures k < |s| <==> c in s
    ensures k < |s| ==> s[k] == c
  {
    if |s| == 0 then 0
    else if s[0] == c then 0
    else 1 + FirstIndex(s[1..], c)
  }

  /** Every field between separators, empty ones included. */
  function Fields(s: string, sep: char): (parts: seq<string>)
    ensures |parts| >= 1
    decreases |s|
  {
    if |s| == 0 then [""]
    else
      var rest := Fields(s[1..], sep);
      if s[0] == sep then [""] + rest
      else [[s[0]] + rest[0]] + rest[1..]
  }

  /** Removes trailing empty strings, as `String.split` with limit 0 does. */
  function DropTrailingEmpty(parts: seq<string>): (r: seq<string>)
    ensures |r| <= |parts| && r == parts[..|r|]
    ensures r != [] ==> r[|r| - 1] != ""
    ensures forall i :: |r| <= i < |parts| ==> parts[i] == ""
  {
    if |parts| == 0 then []
    else if parts[|parts| - 1] == "" then DropTrailingEmpty(parts[..|parts| - 1])
    else parts
  }

  /**
   * Java's `s.split(sep)` for a pattern matching exactly one character: when
   * nothing matches, the whole string; otherwise the fields with trailing
   * empty ones removed.
   */
  function Split(s: string, sep: char): seq<string>
  {
    if sep !in s then [s] else DropTrailingEmpty(Fields(s, sep))
  }

  lemma {:induction false} FieldsFirst(s: string, sep: char)
    ensures Fields(s, sep)[0] == s[..FirstIndex(s, sep)]
    decreases |s|
  {
    if |s| > 0 && s[0] != sep {
      FieldsFirst(s[1..], sep);
      assert s[..FirstIndex(s, sep)] == [s[0]] + s[1..][..FirstIndex(s[1..], sep)];
    }
  }

  /** Every field is empty exactly when the string is made of separators only. */
  lemma {:induction false} FieldsAllEmpty(s: string, sep: char)
    ensures (forall i :: 0 <= i < |Fields(s, sep)| ==> Fields(s, sep)[i] == "")
            <==> (forall k :: 0 <= k < |s| ==> s[k] == sep)
    decreases |s|
  {
    if |s| > 0 {
      FieldsAllEmpty(s[1..], sep);
      var rest := Fields(s[1..], sep);
      if s[0] == sep {
        var fs := Fields(s, sep);
        assert fs == [""] + rest;
        assert (forall i :: 0 <= i < |fs| ==> fs[i] == "") <==> (forall i :: 0 <= i < |rest| ==> rest[i] == "") by {
          assert forall i :: 1 <= i < |fs| ==> fs[i] == rest[i - 1];
          assert forall i :: 0 <= i < |rest| ==> rest[i] == fs[i + 1];
        }
        assert (forall k :: 0 <= k < |s| ==> s[k] == sep) <==> (forall k :: 0 <= k < |s| - 1 ==> s[1..][k] == sep) by {
          assert forall k :: 1 <= k < |s| ==> s[k] == s[1..][k - 1];
          assert forall k :: 0 <= k < |s| - 1 ==> s[1..][k] == s[k + 1];
        }
      } else {
        assert Fields(s, sep)[0] != "";
      }
    }
  }

  /**
   * What `s.split(sep)[0]` yields once `s` contains `sep`: the text before the
   * first separator, unless `s` is made of separators only, in which case the
   * array is empty and `[0]` throws.
   */
  lemma SplitFirst(s: string, sep: char)
    requires sep in s
    ensures |Split(s, sep)| == 0 <==> forall k :: 0 <= k < |s| ==> s[k] == sep
    ensures |Split(s, sep)| > 0 ==> Split(s, sep)[0] == s[..FirstIndex(s, sep)]
  {
    var parts := Fields(s, sep);
    var r := DropTrailingEmpty(parts);
    FieldsAllEmpty(s, sep);
    FieldsFirst(s, sep);
    if |r| == 0 {
      assert forall i :: 0 <= i < |parts| ==> parts[i] == "";
    } else {
      assert r[0] == parts[0];
      assert parts[|r| - 1] != "";
    }
  }

  // ---------------------------------------------------------------------------
  // String.trim

  /** Java's whitespace in the sense of `trim`: every character up to U+0020. */
  predicate IsTrimmed(c: char) { c <= ' ' }

  /** Where `trim`'s forward scan stops: the first index from `i` on whose character is above U+0020. */
  function TrimStart(s: string, i: nat): (st: nat)
    requires i <= |s|
    ensures i <= st <= |s|
    ensures forall k :: i <= k < st ==> IsTrimmed(s[k])
    ensures st < |s| ==> !IsTrimmed(s[st])
    decreases |s| - i
  {
    if i < |s| && IsTrimmed(s[i]) then TrimStart(s, i + 1) else i
  }

  /** Where `trim`'s backward scan stops: the end `len`, not below `st`, with everything from it on at most U+0020. */
  function TrimEnd(s: string, st: nat, len: nat): (e: nat)
    requires st <= len <= |s|
    ensures st <= e <= len
    ensures forall k :: e <= k < len ==> IsTrimmed(s[k])
    ensures e > st ==> !IsTrimmed(s[e - 1])
    decreases len
  {
    if st < len && IsTrimmed(s[len - 1]) then TrimEnd(s, st, len - 1) else len
  }

  /**
   * Java's `s.trim()`: the longest middle part of `s` whose first and last
   * characters are above U+0020; everything cut off at either end is at most U+0020.
   */
  function Trim(s: string): (r: string)
    ensures exists i, j :: 0 <= i <= j <= |s| && r == s[i..j]
                           && (forall k :: 0 <= k < i ==> IsTrimmed(s[k]))
                           && (forall k :: j <= k < |s| ==> IsTrimmed(s[k]))
    ensures r != [] ==> !IsTrimmed(r[0]) && !IsTrimmed(r[|r| - 1])
    ensures forall c :: c in r ==> c in s
  {
    var st := TrimStart(s, 0);
    var len := TrimEnd(s, st, |s|);
    assert st < len ==> s[st..len][0] == s[st];
    s[st..len]
  }

  // ---------------------------------------------------------------------------
  // String.equalsIgnoreCase

  function AsciiUpper(c: char): char
  {
    if 'a' <= c <= 'z' then (c as int - 32) as char else c
  }

  /** Java's `a.equalsIgnoreCase(b)`, with case folding of the ASCII letters. */
  predicate EqualsIgnoreCase(a: string, b: string)
  {
    |a| == |b| && forall i :: 0 <= i < |a| ==> AsciiUpper(a[i]) == AsciiUpper(b[i])
  }

  /** Every character of `s` folded to upper case, as far as ASCII letters go. */
  function UpperAscii(s: string): string
  {
    seq(|s|, i requires 0 <= i < |s| => AsciiUpper(s[i]))
  }

  /** Ignoring case means agreeing once both sides are folded to upper case. */
  lemma EqualsIgnoreCaseUpper(a: string, b: string)
    ensures EqualsIgnoreCase(a, b) <==> UpperAscii(a) == UpperAscii(b)
  {
    if UpperAscii(a) == UpperAscii(b) {
      assert |a| == |UpperAscii(a)| == |b|;
      forall i | 0 <= i < |a| ensures AsciiUpper(a[i]) == AsciiUpper(b[i]) {
        assert UpperAscii(a)[i] == UpperAscii(b)[i];
      }
    }
  }
}
