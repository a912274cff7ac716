/**
 * The parts of the Java and Kotlin standard libraries that the feed reader's
 * ingestion code depends on, written out exactly: fixed-width integers,
 * `String.hashCode`, Kotlin's `isBlank`/`trim`, `contains`, lower-casing,
 * `Long.toString` and `String.compareTo`.
 *
 * A Java `String` is a sequence of UTF-16 code units; here a string is a
 * `seq<char>` of Unicode scalar values. `HashCode` expands every character
 * into its UTF-16 code units, so it agrees with Java on every string.
 */
module JavaLang {

  const TWO_32: int := 0x1_0000_0000

  /** Kotlin `Int`. */
  type Int32 = x: int | -0x8000_0000 <= x < 0x8000_0000
  /** Kotlin `Long`. */
  type Int64 = x: int | -0x8000_0000_0000_0000 <= x < 0x8000_0000_0000_0000

  /** A Kotlin nullable value `T?`. */
  datatype Option<T> = None | Some(value: T) {
    /** Kotlin's elvis operator `this ?: d`. */
    function GetOr(d: T): T {
      if Some? then value else d
    }
  }

  function Min(a: int, b: int): int {
    if a <= b then a else b
  }

  // ---------------------------------------------------------------------------
  // 32-bit wrap-around

  /** Java's two's-complement narrowing of an exact integer to an `int`. */
  function Wrap32(x: int): (r: Int32)
    ensures (r - x) % TWO_32 == 0
    ensures -0x8000_0000 <= x < 0x8000_0000 ==> r == x
  {
    (x + 0x8000_0000) % TWO_32 - 0x8000_0000
  }

  lemma {:induction false} ModShift(x: int, k: int)
    ensures (x + k * TWO_32) % TWO_32 == x % TWO_32
    decreases if k < 0 then -k else k
  {
    if k > 0 {
      ModShift(x, k - 1);
      assert x + k * TWO_32 == (x + (k - 1) * TWO_32) + TWO_32;
    } else if k < 0 {
      ModShift(x, k + 1);
      assert x + k * TWO_32 == (x + (k + 1) * TWO_32) - TWO_32;
    }
  }

  /** Two integers that agree modulo 2^32 wrap to the same `int`. */
  lemma WrapCongruent(a: int, b: int)
    requires (a - b) % TWO_32 == 0
    ensures Wrap32(a) == Wrap32(b)
  {
    var k := (a - b) / TWO_32;
    assert a == b + k * TWO_32;
    ModShift(b + 0x8000_0000, k);
    assert a + 0x8000_0000 == (b + 0x8000_0000) + k * TWO_32;
  }

  // ---------------------------------------------------------------------------
  // String.hashCode

  /** The UTF-16 code units of one character. */
  function Units(c: char): (u: seq<int>)
    ensures 1 <= |u| <= 2
    ensures forall k :: 0 <= k < |u| ==> 0 <= u[k] < 0x1_0000
    ensures (c as int) < 0x1_0000 ==> u == [c as int]
  {
    var v := c as int;
    if v < 0x1_0000 then [v]
    else [0xD800 + (v - 0x1_0000) / 0x400, 0xDC00 + (v - 0x1_0000) % 0x400]
  }

  /** The UTF-16 code units of a string, as Java stores them. */
  function Utf16(s: string): seq<int>
  {
    if s == [] then [] else Utf16(s[..|s| - 1]) + Units(s[|s| - 1])
  }

  /** Every character of `s` lies in the Basic Multilingual Plane. */
  predicate InBmp(s: string)
  {
    forall i | 0 <= i < |s| :: (s[i] as int) < 0x1_0000
  }

  /** In the Basic Multilingual Plane a character is one UTF-16 unit. */
  lemma {:induction false} Utf16Bmp(s: string)
    requires InBmp(s)
    ensures |Utf16(s)| == |s|
    decreases |s|
  {
    if s != [] {
      Utf16Bmp(s[..|s| - 1]);
    }
  }

  /** The encoding of a prefix is a prefix of the encoding. */
  lemma {:induction false} Utf16Prefix(t: string, s: string)
    requires t <= s
    ensures Utf16(t) <= Utf16(s)
    decreases |s|
  {
    if |t| < |s| {
      assert t <= s[..|s| - 1];
      Utf16Prefix(t, s[..|s| - 1]);
    } else {
      assert t == s;
    }
  }

  /**
   * `s.substring(0, min(n, s.length))`, where Java counts the length in UTF-16
   * units: the longest prefix of `s` whose encoding has at most `n` units. A
   * surrogate pair that straddles unit `n` is left out whole.
   */
  function UnitPrefix(s: string, n: nat): (r: string)
    ensures r <= s && |Utf16(r)| <= n
    ensures r == s || |Utf16(r)| + |Units(s[|r|])| > n
    decreases |s|
  {
    if |Utf16(s)| <= n then s
    else
      var r := UnitPrefix(s[..|s| - 1], n);
      assert r == s[..|s| - 1] ==> s[..|r| + 1] == s;
      r
  }

  /**
   * The cut keeps the first units of the encoding, all `n` of them (or the
   * whole string) except where a surrogate pair straddles unit `n`; then one fewer.
   */
  lemma UnitPrefixUnits(s: string, n: nat)
    ensures Utf16(UnitPrefix(s, n)) <= Utf16(s)
    ensures |Utf16(UnitPrefix(s, n))| >= Min(n, |Utf16(s)|) - 1
  {
    var r := UnitPrefix(s, n);
    Utf16Prefix(r, s);
  }

  /** On Basic Multilingual Plane text the cut is the plain character prefix. */
  lemma UnitPrefixBmp(s: string, n: nat)
    requires InBmp(s)
    ensures UnitPrefix(s, n) == s[..Min(n, |s|)]
  {
    var r := UnitPrefix(s, n);
    assert InBmp(r);
    Utf16Bmp(r);
    Utf16Bmp(s);
  }

  function Pow31(n: nat): nat
  {
    if n == 0 then 1 else 31 * Pow31(n - 1)
  }

  /** The exact (unbounded) sum s[0]*31^(n-1) + s[1]*31^(n-2) + ... + s[n-1]. */
  function PolySum(u: seq<int>): int
  {
    if u == [] then 0 else u[0] * Pow31(|u| - 1) + PolySum(u[1..])
  }

  /**
   * Java's `String.hashCode`: the polynomial sum over the UTF-16 code units,
   * computed in `int` arithmetic, i.e. wrapped to 32 bits.
   */
  function HashCode(s: string): Int32
  {
    Wrap32(PolySum(Utf16(s)))
  }

  lemma {:induction false} PolySumSnoc(u: seq<int>, x: int)
    ensures PolySum(u + [x]) == 31 * PolySum(u) + x
  {
    if u == [] {
      assert [x][1..] == [];
    } else {
      assert (u + [x])[1..] == u[1..] + [x];
      PolySumSnoc(u[1..], x);
      assert Pow31(|u|) == 31 * Pow31(|u| - 1);
      calc {
        PolySum(u + [x]);
        u[0] * Pow31(|u|) + PolySum(u[1..] + [x]);
        u[0] * (31 * Pow31(|u| - 1)) + 31 * PolySum(u[1..]) + x;
        31 * (u[0] * Pow31(|u| - 1) + PolySum(u[1..])) + x;
      }
    }
  }

  /** The empty string hashes to 0. */
  lemma HashCodeEmpty()
    ensures HashCode("") == 0
  {
  }

  /**
   * The implementation loop `h = 31 * h + c` with `int` overflow computes the
   * contract's value: appending a character of the Basic Multilingual Plane
   * updates the hash by one step of that loop.
   */
  lemma HashCodeStep(s: string, c: char)
    requires (c as int) < 0x1_0000
    ensures HashCode(s + [c]) == Wrap32(31 * HashCode(s) + c as int)
  {
    assert (s + [c])[..|s + [c]| - 1] == s;
    assert Utf16(s + [c]) == Utf16(s) + [c as int];
    PolySumSnoc(Utf16(s), c as int);
    WrapStep(PolySum(Utf16(s)), c as int);
  }

  /** One step `31 * h + c` may wrap the running hash first or only at the end. */
  lemma WrapStep(p: int, c: int)
    ensures Wrap32(31 * Wrap32(p) + c) == Wrap32(31 * p + c)
  {
    var w := Wrap32(p);
    var k := (w - p) / TWO_32;
    assert w == p + k * TWO_32;
    assert (31 * w + c) - (31 * p + c) == (31 * k) * TWO_32;
    WrapCongruent(31 * w + c, 31 * p + c);
  }

  // ---------------------------------------------------------------------------
  // Whitespace, blank, trim

  /**
   * Kotlin's `Char.isWhitespace()` on the JVM:
   * `Character.isWhitespace(c) || Character.isSpaceChar(c)`.
   */
  predicate IsWhitespace(c: char)
  {
    || ('\t' <= c <= '\r')
    || ('\U{1C}' <= c <= '\U{1F}')
    || c == ' ' || c == '\U{A0}' || c == '\U{1680}'
    || ('\U{2000}' <= c <= '\U{200A}')
    || c == '\U{2028}' || c == '\U{2029}' || c == '\U{202F}' || c == '\U{205F}' || c == '\U{3000}'
  }

  /** Kotlin's `CharSequence.isBlank()`. */
  predicate IsBlank(s: string)
  {
    forall i :: 0 <= i < |s| ==> IsWhitespace(s[i])
  }

  /** How many whitespace characters `s` starts with: where `trim` starts keeping. */
  function LeadingBlanks(s: string): (n: nat)
    ensures n <= |s|
    ensures forall i | 0 <= i < n :: IsWhitespace(s[i])
    ensures n < |s| ==> !IsWhitespace(s[n])
  {
    if s != [] && IsWhitespace(s[0]) then 1 + LeadingBlanks(s[1..]) else 0
  }

  /** How many whitespace characters `s` ends with: where `trim` stops keeping. */
  function TrailingBlanks(s: string): (n: nat)
    ensures n <= |s|
    ensures forall i | |s| - n <= i < |s| :: IsWhitespace(s[i])
    ensures n < |s| ==> !IsWhitespace(s[|s| - n - 1])
  {
    if s != [] && IsWhitespace(s[|s| - 1]) then 1 + TrailingBlanks(s[..|s| - 1]) else 0
  }

  /** Kotlin's `String.trim()`: removes leading and trailing whitespace. */
  function Trim(s: string): string
  {
    var t := s[LeadingBlanks(s)..];
    t[..|t| - TrailingBlanks(t)]
  }

  /**
   * `Trim` returns the middle part of its input: what it removes at either
   * end is blank, and what it keeps neither starts nor ends with whitespace.
   */
  lemma TrimSlices(s: string) returns (i: nat, j: nat)
    ensures i <= j <= |s| && Trim(s) == s[i..j]
    ensures forall k | 0 <= k < i :: IsWhitespace(s[k])
    ensures forall k | j <= k < |s| :: IsWhitespace(s[k])
    ensures i < j ==> !IsWhitespace(s[i]) && !IsWhitespace(s[j - 1])
  {
    i := LeadingBlanks(s);
    var t := s[i..];
    j := |s| - TrailingBlanks(t);
    assert t[..j - i] == s[i..j];
    assert forall k | j <= k < |s| :: s[k] == t[k - i];
    if i < j {
      assert s[j - 1] == t[j - i - 1];
    }
  }

  /** Trimming twice is trimming once. */
  lemma TrimIdempotent(s: string)
    ensures Trim(Trim(s)) == Trim(s)
  {
    var i, j := TrimSlices(s);
    var r := Trim(s);
    if r != [] {
      assert r[0] == s[i] && r[|r| - 1] == s[j - 1];
    }
    assert LeadingBlanks(r) == 0 && TrailingBlanks(r) == 0;
    assert r[0..] == r;
  }

  // ---------------------------------------------------------------------------
  // contains

  /** Kotlin's `String.contains(other)`: `t` occurs in `s` as a substring. */
  predicate Contains(s: string, t: string)
  {
    exists i | 0 <= i <= |s| - |t| :: OccursAt(s, t, i)
  }

  /** `t` occurs in `s` starting at index `i`. */
  predicate OccursAt(s: string, t: string, i: int)
  {
    0 <= i <= |s| - |t| && s[i..i + |t|] == t
  }

  /** A string in which no two neighbouring characters spell the start of `t` cannot contain `t`. */
  lemma NotContainsByPair(s: string, t: string)
    requires |t| >= 2
    requires forall i | 0 <= i < |s| - 1 :: s[i] != t[0] || s[i + 1] != t[1]
    ensures !Contains(s, t)
  {
    forall i | 0 <= i <= |s| - |t|
      ensures !OccursAt(s, t, i)
    {
      assert s[i..i + |t|][0] == s[i];
      assert s[i..i + |t|][1] == s[i + 1];
    }
  }

  /** Every string contains itself, so a tag equal to a pattern matches it. */
  lemma ContainsSelf(s: string)
    ensures Contains(s, s)
  {
    assert OccursAt(s, s, 0);
  }

  // ---------------------------------------------------------------------------
  // lower case and comparison

  /** `Char.lowercaseChar` restricted to the ASCII letters. */
  function LowerChar(c: char): char
  {
    if 'A' <= c <= 'Z' then (c as int + 32) as char else c
  }

  /** Kotlin's `String.toLowerCase()` (ASCII letters; every other character is kept). */
  function ToLower(s: string): (r: string)
    ensures |r| == |s|
    ensures forall i :: 0 <= i < |s| ==> r[i] == LowerChar(s[i])
  {
    seq(|s|, i requires 0 <= i < |s| => LowerChar(s[i]))
  }

  /** Lower-casing is idempotent, so an already lower-cased key is its own key. */
  lemma ToLowerIdempotent(s: string)
    ensures ToLower(ToLower(s)) == ToLower(s)
  {
  }

  /**
   * Java's `String.compareTo(b) < 0`: lexicographic order of the characters,
   * a proper prefix coming first.
   */
  predicate LexLess(a: string, b: string)
  {
    if a == [] then b != []
    else if b == [] then false
    else if a[0] != b[0] then a[0] < b[0]
    else LexLess(a[1..], b[1..])
  }

  predicate LexLe(a: string, b: string)
  {
    a == b || LexLess(a, b)
  }

  lemma {:induction false} LexLessIrreflexive(a: string)
    ensures !LexLess(a, a)
  {
    if a != [] {
      LexLessIrreflexive(a[1..]);
    }
  }

  lemma {:induction false} LexLessTransitive(a: string, b: string, c: string)
    requires LexLess(a, b) && LexLess(b, c)
    ensures LexLess(a, c)
  {
    if a != [] && b != [] && c != [] && a[0] == b[0] && b[0] == c[0] {
      LexLessTransitive(a[1..], b[1..], c[1..]);
    }
  }

  lemma {:induction false} LexLessTotal(a: string, b: string)
    requires a != b
    ensures LexLess(a, b) || LexLess(b, a)
  {
    if a != [] && b != [] && a[0] == b[0] {
      assert a == [a[0]] + a[1..] && b == [b[0]] + b[1..];
      LexLessTotal(a[1..], b[1..]);
    }
  }

  lemma LexLessAsymmetric(a: string, b: string)
    requires LexLess(a, b)
    ensures !LexLess(b, a)
  {
    if LexLess(b, a) {
      LexLessTransitive(a, b, a);
      LexLessIrreflexive(a);
    }
  }

  // ---------------------------------------------------------------------------
  // Long.toString

  function DigitChar(d: int): char
    requires 0 <= d < 10
  {
    ('0' as int + d) as char
  }

  /** The decimal digits of a natural number, without leading zeros. */
  function Digits(n: nat): (r: string)
    ensures r != []
    ensures forall i :: 0 <= i < |r| ==> '0' <= r[i] <= '9'
  {
    if n < 10 then [DigitChar(n)] else Digits(n / 10) + [DigitChar(n % 10)]
  }

  /** The value of a string of decimal digits. */
  function DigitsValue(s: string): int
    requires forall i :: 0 <= i < |s| ==> '0' <= s[i] <= '9'
  {
    if s == [] then 0 else 10 * DigitsValue(s[..|s| - 1]) + (s[|s| - 1] as int - '0' as int)
  }

  /** Java's `Long.toString(n)`: optional minus sign, then the digits. */
  function LongToString(n: int): string
  {
    if n < 0 then "-" + Digits(-n) else Digits(n)
  }

  lemma {:induction false} DigitsValueOfDigits(n: nat)
    ensures DigitsValue(Digits(n)) == n
  {
    if n >= 10 {
      var s := Digits(n);
      assert s[..|s| - 1] == Digits(n / 10);
      DigitsValueOfDigits(n / 10);
    }
  }

  /** The string starts with a minus sign exactly for negative numbers. */
  lemma LongToStringSign(n: int)
    ensures LongToString(n) != [] && (LongToString(n)[0] == '-' <==> n < 0)
  {
    if n >= 0 {
      assert '0' <= Digits(n)[0] <= '9';
    }
  }

  /**
   * `LongToString` loses nothing: the sign and the digits give back the
   * number, so distinct timestamps give distinct strings.
   */
  lemma LongToStringInjective(m: int, n: int)
    requires LongToString(m) == LongToString(n)
    ensures m == n
  {
    LongToStringSign(m);
    LongToStringSign(n);
    if m < 0 && n < 0 {
      assert Digits(-m) == LongToString(m)[1..];
      assert Digits(-n) == LongToString(n)[1..];
      DigitsValueOfDigits(-m);
      DigitsValueOfDigits(-n);
    } else if m >= 0 && n >= 0 {
      DigitsValueOfDigits(m);
      DigitsValueOfDigits(n);
    }
  }
}
