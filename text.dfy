/**
 * The JavaScript string and number primitives the cloud objects rely on:
 * the default string order used by `Array.prototype.sort` and by the store's
 * `orderBy` on string fields, decimal formatting (`String(n)`,
 * `padStart`), `parseInt` with its default radix, and `String.prototype.trim`.
 */
module Text {
  import opened Common

  // ---------------------------------------------------------------------
  // String order
  // ---------------------------------------------------------------------

  /** `a` sorts strictly before `b`: lexicographic order on characters, a proper prefix first. */
  predicate Less(a: string, b: string)
    decreases |a|
  {
    if |b| == 0 then false
    else if |a| == 0 then true
    else if a[0] != b[0] then a[0] < b[0]
    else Less(a[1..], b[1..])
  }

  lemma {:induction false} LessIrreflexive(a: string)
    ensures !Less(a, a)
    decreases |a|
  {
    if |a| > 0 {
      LessIrreflexive(a[1..]);
    }
  }

  lemma {:induction false} LessTrichotomy(a: string, b: string)
    ensures a == b || Less(a, b) || Less(b, a)
    decreases |a|
  {
    if |a| > 0 && |b| > 0 && a[0] == b[0] {
      LessTrichotomy(a[1..], b[1..]);
      if a[1..] == b[1..] {
        assert a == [a[0]] + a[1..] && b == [b[0]] + b[1..];
      }
    }
  }

  lemma {:induction false} LessAsymmetric(a: string, b: string)
    ensures !(Less(a, b) && Less(b, a))
    decreases |a|
  {
    if |a| > 0 && |b| > 0 && a[0] == b[0] {
      LessAsymmetric(a[1..], b[1..]);
    }
  }

  lemma LessAsymmetricAll()
    ensures forall a, b :: Less(a, b) ==> !Less(b, a)
  {
    forall a, b ensures Less(a, b) ==> !Less(b, a) {
      LessAsymmetric(a, b);
    }
  }

  lemma {:induction false} LessTransitive(a: string, b: string, c: string)
    requires Less(a, b) && Less(b, c)
    ensures Less(a, c)
    decreases |a|
  {
    if |a| > 0 && a[0] == b[0] && b[0] == c[0] {
      LessTransitive(a[1..], b[1..], c[1..]);
    }
  }

  /** Two strings with a common prefix compare as their remainders do. */
  lemma {:induction false} LessCommonPrefix(p: string, a: string, b: string)
    ensures Less(p + a, p + b) <==> Less(a, b)
    decreases |p|
  {
    if |p| > 0 {
      assert (p + a)[1..] == p[1..] + a;
      assert (p + b)[1..] == p[1..] + b;
      LessCommonPrefix(p[1..], a, b);
    } else {
      assert p + a == a && p + b == b;
    }
  }

  /**
   * The two ids of a relationship in the order `[x, y].sort()` leaves them:
   * the smaller first.
   */
  function SortPair(x: Id, y: Id): (p: (Id, Id))
    ensures p == (x, y) || p == (y, x)
    ensures !Less(p.1, p.0)
    ensures x != y ==> Less(p.0, p.1)
  {
    LessIrreflexive(x);
    LessTrichotomy(x, y);
    LessAsymmetric(x, y);
    if Less(y, x) then (y, x) else (x, y)
  }

  /** Sorting a pair does not depend on the order of the arguments. */
  lemma SortPairSymmetric(x: Id, y: Id)
    ensures SortPair(x, y) == SortPair(y, x)
  {
    LessAsymmetric(x, y);
    LessTrichotomy(x, y);
  }

  /** Two sorted pairs agree exactly when they are made of the same two ids. */
  lemma SortPairSame(a: Id, b: Id, c: Id, d: Id)
    ensures SortPair(a, b) == SortPair(c, d) <==> ((a == c && b == d) || (a == d && b == c))
  {
    SortPairSymmetric(c, d);
  }

  // ---------------------------------------------------------------------
  // The greatest string of a set (a descending `orderBy` with `limit(1)`)
  // ---------------------------------------------------------------------

  predicate IsMaxOf(m: string, s: set<string>)
  {
    m in s && forall y :: y in s ==> y == m || Less(y, m)
  }

  lemma {:induction false} MaxExists(s: set<string>)
    requires s != {}
    ensures exists m :: IsMaxOf(m, s)
    decreases |s|
  {
    var x :| x in s;
    if s == {x} {
      assert IsMaxOf(x, s);
    } else {
      var rest := s - {x};
      MaxExists(rest);
      var m :| IsMaxOf(m, rest);
      LessTrichotomy(x, m);
      if Less(m, x) {
        forall y | y in s
          ensures y == x || Less(y, x)
        {
          if y != x && y != m {
            LessTransitive(y, m, x);
          }
        }
        assert IsMaxOf(x, s);
      } else {
        assert IsMaxOf(m, s);
      }
    }
  }

  function MaxString(s: set<string>): (m: string)
    requires s != {}
    ensures IsMaxOf(m, s)
  {
    MaxExists(s);
    LessAsymmetricAll();
    var m :| m in s && IsMaxOf(m, s); m
  }

  // ---------------------------------------------------------------------
  // Decimal digits
  // ---------------------------------------------------------------------

  predicate IsDigit(c: char) { '0' <= c <= '9' }

  predicate AllDigits(s: string) { forall i :: 0 <= i < |s| ==> IsDigit(s[i]) }

  function DigitValue(c: char): nat
    requires IsDigit(c)
  {
    c as int - '0' as int
  }

  function DigitChar(d: nat): (c: char)
    requires d < 10
    ensures IsDigit(c) && DigitValue(c) == d
  {
    ('0' as int + d) as char
  }

  function Pow10(k: nat): (p: nat)
    ensures p >= 1
  {
    if k == 0 then 1 else 10 * Pow10(k - 1)
  }

  /** `String(n)` for a non-negative integer. */
  function NatToString(n: nat): (s: string)
    ensures |s| >= 1 && AllDigits(s)
  {
    if n < 10 then [DigitChar(n)] else NatToString(n / 10) + [DigitChar(n % 10)]
  }

  /** `String(i)` for an integer. */
  function IntToString(i: int): string
  {
    if i < 0 then "-" + NatToString(-i) else NatToString(i)
  }

  /** The value of a string of decimal digits, most significant first. */
  function DigitsValue(s: string): nat
    requires AllDigits(s)
  {
    if |s| == 0 then 0 else 10 * DigitsValue(s[..|s| - 1]) + DigitValue(s[|s| - 1])
  }

  lemma {:induction false} NatToStringValue(n: nat)
    ensures DigitsValue(NatToString(n)) == n
  {
    if n >= 10 {
      var s := NatToString(n);
      assert s[..|s| - 1] == NatToString(n / 10);
      NatToStringValue(n / 10);
    }
  }

  /** A number below 10^k needs at most k digits; one at least 10^(k-1) needs at least k. */
  lemma {:induction false} NatToStringLength(n: nat, k: nat)
    requires k >= 1
    ensures n < Pow10(k) ==> |NatToString(n)| <= k
    ensures n >= Pow10(k - 1) ==> |NatToString(n)| >= k
  {
    if n >= 10 && k >= 2 {
      NatToStringLength(n / 10, k - 1);
    }
  }

  lemma {:induction false} DigitsValueFront(c: char, s: string)
    requires IsDigit(c) && AllDigits(s)
    ensures AllDigits([c] + s)
    ensures DigitsValue([c] + s) == DigitValue(c) * Pow10(|s|) + DigitsValue(s)
    decreases |s|
  {
    var t := [c] + s;
    if |s| > 0 {
      assert t[..|t| - 1] == [c] + s[..|s| - 1];
      DigitsValueFront(c, s[..|s| - 1]);
    }
  }

  lemma {:induction false} DigitsValueBound(s: string)
    requires AllDigits(s)
    ensures DigitsValue(s) < Pow10(|s|)
  {
    if |s| > 0 {
      DigitsValueBound(s[..|s| - 1]);
    }
  }

  /**
   * For digit strings of one width, string order and numeric order agree:
   * a descending sort of fixed-width numbers puts the largest number first.
   */
  lemma {:induction false} FixedWidthOrder(s: string, t: string)
    requires |s| == |t| && AllDigits(s) && AllDigits(t)
    ensures Less(s, t) <==> DigitsValue(s) < DigitsValue(t)
    decreases |s|
  {
    if |s| > 0 {
      var s', t' := s[1..], t[1..];
      assert s == [s[0]] + s' && t == [t[0]] + t';
      DigitsValueFront(s[0], s');
      DigitsValueFront(t[0], t');
      var p := Pow10(|s'|);
      DigitsValueBound(s');
      DigitsValueBound(t');
      if s[0] == t[0] {
        FixedWidthOrder(s', t');
      } else if s[0] < t[0] {
        HeadDominates(DigitValue(s[0]), DigitValue(t[0]), DigitsValue(s'), DigitsValue(t'), p);
      } else {
        HeadDominates(DigitValue(t[0]), DigitValue(s[0]), DigitsValue(t'), DigitsValue(s'), p);
      }
    }
  }

  lemma HeadDominates(a: nat, b: nat, x: nat, y: nat, p: nat)
    requires a < b && x < p && y < p
    ensures a * p + x < b * p + y
  {
    assert (a + 1) * p <= b * p;
  }

  // ---------------------------------------------------------------------
  // padStart
  // ---------------------------------------------------------------------

  function Repeat(c: char, n: nat): (s: string)
    ensures |s| == n && forall i :: 0 <= i < n ==> s[i] == c
  {
    if n == 0 then [] else [c] + Repeat(c, n - 1)
  }

  /** `s.padStart(width, fill)`: fill on the left up to `width`; longer strings are kept. */
  function PadStart(s: string, width: nat, fill: char): (r: string)
    ensures |s| >= width ==> r == s
    ensures |s| < width ==> |r| == width && r[width - |s|..] == s
    ensures |s| < width ==> forall i :: 0 <= i < width - |s| ==> r[i] == fill
  {
    if |s| >= width then s else Repeat(fill, width - |s|) + s
  }

  /** Leading zeros do not change a decimal value. */
  lemma {:induction false} LeadingZeros(k: nat, s: string)
    requires AllDigits(s)
    ensures AllDigits(Repeat('0', k) + s)
    ensures DigitsValue(Repeat('0', k) + s) == DigitsValue(s)
  {
    if k > 0 {
      LeadingZeros(k - 1, s);
      assert Repeat('0', k) + s == ['0'] + (Repeat('0', k - 1) + s);
      var rest := Repeat('0', k - 1) + s;
      DigitsValueFront('0', rest);
      assert DigitValue('0') * Pow10(|rest|) == 0;
    } else {
      assert Repeat('0', k) + s == s;
    }
  }

  // ---------------------------------------------------------------------
  // parseInt (radix left undefined) and trim
  // ---------------------------------------------------------------------

  /** WhiteSpace and LineTerminator code points of ECMAScript, stripped by `trim` and `parseInt`. */
  predicate IsJsWhitespace(c: char)
  {
    var n := c as int;
    n == 0x09 || n == 0x0A || n == 0x0B || n == 0x0C || n == 0x0D || n == 0x20 || n == 0xA0
    || n == 0x1680 || (0x2000 <= n <= 0x200A) || n == 0x2028 || n == 0x2029 || n == 0x202F
    || n == 0x205F || n == 0x3000 || n == 0xFEFF
  }

  function TrimStart(s: string): (r: string)
    ensures |r| <= |s| && r == s[|s| - |r|..]
    ensures |r| > 0 ==> !IsJsWhitespace(r[0])
    ensures forall i :: 0 <= i < |s| - |r| ==> IsJsWhitespace(s[i])
  {
    if |s| > 0 && IsJsWhitespace(s[0]) then TrimStart(s[1..]) else s
  }

  function TrimEnd(s: string): (r: string)
    ensures |r| <= |s| && r == s[..|r|]
    ensures |r| > 0 ==> !IsJsWhitespace(r[|r| - 1])
    ensures forall i :: |r| <= i < |s| ==> IsJsWhitespace(s[i])
  {
    if |s| > 0 && IsJsWhitespace(s[|s| - 1]) then TrimEnd(s[..|s| - 1]) else s
  }

  /** `s.trim()`. */
  function Trim(s: string): string
  {
    TrimEnd(TrimStart(s))
  }

  /** A trimmed string starts and ends with non-whitespace, and trimming it again changes nothing. */
  lemma TrimIdempotent(s: string)
    ensures var t := Trim(s); |t| > 0 ==> !IsJsWhitespace(t[0]) && !IsJsWhitespace(t[|t| - 1])
    ensures Trim(Trim(s)) == Trim(s)
  {
    var t := Trim(s);
    var u := TrimStart(s);
    if |t| > 0 {
      assert t[0] == u[0];
    }
  }

  /** `!s.trim()` holds exactly for strings made only of whitespace. */
  lemma TrimEmpty(s: string)
    ensures Trim(s) == "" <==> forall i :: 0 <= i < |s| ==> IsJsWhitespace(s[i])
  {
    var u := TrimStart(s);
    if |u| > 0 {
      assert u[0] == s[|s| - |u|];
      assert TrimEnd(u) != "";
    }
  }

  // ---------------------------------------------------------------------
  // String length
  // ---------------------------------------------------------------------

  /** A character outside the Basic Multilingual Plane: two UTF-16 code units. */
  predicate IsAstral(c: char)
  {
    c as int >= 0x1_0000
  }

  /**
   * `s.length`: the number of UTF-16 code units, so a character outside the
   * Basic Multilingual Plane counts twice.
   */
  function Utf16Length(s: string): (n: nat)
    ensures |s| <= n <= 2 * |s|
    ensures (forall i :: 0 <= i < |s| ==> !IsAstral(s[i])) ==> n == |s|
    ensures (forall i :: 0 <= i < |s| ==> IsAstral(s[i])) ==> n == 2 * |s|
    ensures |s| == 1 ==> n == (if IsAstral(s[0]) then 2 else 1)
  {
    if |s| == 0 then 0
    else (if IsAstral(s[0]) then 2 else 1) + Utf16Length(s[1..])
  }

  /**
   * The length of a concatenation is the sum of the lengths, so with the
   * single-character case the length of any string is one unit for each
   * character up to U+FFFF and two for each above.
   */
  lemma {:induction false} Utf16LengthAppend(a: string, b: string)
    ensures Utf16Length(a + b) == Utf16Length(a) + Utf16Length(b)
  {
    if |a| > 0 {
      assert (a + b)[1..] == a[1..] + b;
      Utf16LengthAppend(a[1..], b);
    } else {
      assert a + b == b;
    }
  }

  function SkipWhitespace(s: string): (r: string)
    ensures |r| <= |s|
  {
    if |s| > 0 && IsJsWhitespace(s[0]) then SkipWhitespace(s[1..]) else s
  }

  /** The longest prefix of decimal digits. */
  function DecimalPrefix(s: string): (r: string)
    ensures AllDigits(r) && |r| <= |s| && r == s[..|r|]
  {
    if |s| > 0 && IsDigit(s[0]) then [s[0]] + DecimalPrefix(s[1..]) else ""
  }

  predicate IsHexDigit(c: char)
  {
    IsDigit(c) || 'a' <= c <= 'f' || 'A' <= c <= 'F'
  }

  function HexDigitValue(c: char): (v: nat)
    requires IsHexDigit(c)
    ensures v < 16
  {
    if IsDigit(c) then DigitValue(c)
    else if 'a' <= c <= 'f' then c as int - 'a' as int + 10
    else c as int - 'A' as int + 10
  }

  /** The value of a string of hexadecimal digits, most significant first. */
  function HexValue(s: string): nat
    requires forall i :: 0 <= i < |s| ==> IsHexDigit(s[i])
  {
    if |s| == 0 then 0 else 16 * HexValue(s[..|s| - 1]) + HexDigitValue(s[|s| - 1])
  }

  function HexPrefix(s: string): (r: string)
    ensures (forall i :: 0 <= i < |r| ==> IsHexDigit(r[i])) && |r| <= |s|
  {
    if |s| > 0 && IsHexDigit(s[0]) then [s[0]] + HexPrefix(s[1..]) else ""
  }

  /** The digits after the sign: hexadecimal after a `0x`/`0X` prefix, decimal otherwise. */
  function ParseUnsigned(u: string): Option<nat>
  {
    if |u| >= 2 && u[0] == '0' && (u[1] == 'x' || u[1] == 'X') then
      var h := HexPrefix(u[2..]);
      if |h| == 0 then None else Some(HexValue(h))
    else
      var d := DecimalPrefix(u);
      if |d| == 0 then None else Some(DigitsValue(d))
  }

  /**
   * `parseInt(s)`: skip leading whitespace, read an optional sign, then the
   * digits; `None` stands for `NaN` (no digit was read).
   */
  function ParseInt(s: string): Option<int>
  {
    var t := SkipWhitespace(s);
    var negative := |t| > 0 && t[0] == '-';
    var u := if |t| > 0 && (t[0] == '-' || t[0] == '+') then t[1..] else t;
    match ParseUnsigned(u)
    case None => None
    case Some(v) => var n: int := v; Some(if negative then -n else n)
  }

  lemma DecimalPrefixAllDigits(s: string)
    requires AllDigits(s)
    ensures DecimalPrefix(s) == s
  {
  }

  /** A string of decimal digits (not a `0x` prefix) reads back as its value. */
  lemma ParseUnsignedDigits(s: string)
    requires |s| >= 1 && AllDigits(s)
    ensures ParseUnsigned(s) == Some(DigitsValue(s))
  {
    if |s| >= 2 {
      assert IsDigit(s[1]);
    }
    DecimalPrefixAllDigits(s);
  }

  /** parseInt reads a string of decimal digits as its decimal value, leading zeros included. */
  lemma ParseIntDigits(s: string)
    requires |s| >= 1 && AllDigits(s)
    ensures ParseInt(s) == Some(DigitsValue(s))
  {
    ParseUnsignedDigits(s);
    assert IsDigit(s[0]);
    assert SkipWhitespace(s) == s;
  }

  /** `parseInt(String(i)) === i`: formatting an integer and parsing it back is the identity. */
  lemma ParseIntToString(i: int)
    ensures ParseInt(IntToString(i)) == Some(i)
  {
    var n: nat := if i < 0 then -i else i;
    var d := NatToString(n);
    NatToStringValue(n);
    ParseUnsignedDigits(d);
    var s := IntToString(i);
    assert IsDigit(d[0]);
    if i < 0 {
      assert s == "-" + d && s[1..] == d;
    }
    assert SkipWhitespace(s) == s;
  }

  /** `s.startsWith(p)`; also what an anchored regular expression `^p` matches. */
  predicate StartsWith(s: string, p: string)
  {
    |p| <= |s| && s[..|p|] == p
  }
}
