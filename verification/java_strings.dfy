/**
 * The few `java.lang.String` / `Integer` operations the file processor relies on,
 * written out over `seq<char>`: `trim`, decimal and hexadecimal rendering,
 * `hashCode` and `compareTo`.
 */
module JavaStrings {

  // ---------------------------------------------------------------------------
  // trim
  // ---------------------------------------------------------------------------

  /** `String.trim` strips every character whose code is at most U+0020. */
  predicate IsTrimmable(c: char) {
    c <= ' '
  }

  /** Drops the leading trimmable characters. */
  function TrimLeft(s: string): (r: string)
    ensures |r| <= |s| && r == s[|s| - |r|..]
    ensures forall i :: 0 <= i < |s| - |r| ==> IsTrimmable(s[i])
    ensures |r| > 0 ==> !IsTrimmable(r[0])
    decreases |s|
  {
    if |s| > 0 && IsTrimmable(s[0]) then TrimLeft(s[1..]) else s
  }

  /** Drops the trailing trimmable characters. */
  function TrimRight(s: string): (r: string)
    ensures |r| <= |s| && r == s[..|r|]
    ensures forall i :: |r| <= i < |s| ==> IsTrimmable(s[i])
    ensures |r| > 0 ==> !IsTrimmable(r[|r| - 1])
    decreases |s|
  {
    if |s| > 0 && IsTrimmable(s[|s| - 1]) then TrimRight(s[..|s| - 1]) else s
  }

  /** `String.trim`. */
  function Trim(s: string): string {
    TrimRight(TrimLeft(s))
  }

  /** Where the trimmed text begins in `s`. */
  function TrimStart(s: string): nat {
    |s| - |TrimLeft(s)|
  }

  /**
   * What `trim` leaves: the infix of `s` between the run of trimmable
   * characters at each end, beginning and ending with a kept character, and
   * empty exactly when every character is trimmable.
   */
  lemma TrimSpec(s: string)
    ensures TrimStart(s) + |Trim(s)| <= |s|
    ensures Trim(s) == s[TrimStart(s)..TrimStart(s) + |Trim(s)|]
    ensures forall i :: 0 <= i < TrimStart(s) ==> IsTrimmable(s[i])
    ensures forall i :: TrimStart(s) + |Trim(s)| <= i < |s| ==> IsTrimmable(s[i])
    ensures |Trim(s)| > 0 ==> !IsTrimmable(Trim(s)[0]) && !IsTrimmable(Trim(s)[|Trim(s)| - 1])
    ensures |Trim(s)| == 0 <==> forall i :: 0 <= i < |s| ==> IsTrimmable(s[i])
  {
    TrimIsInfix(s);
    TrimEnds(s);
  }

  /** `trim` keeps the infix between the trimmable runs at both ends. */
  lemma TrimIsInfix(s: string)
    ensures TrimStart(s) + |Trim(s)| <= |s|
    ensures Trim(s) == s[TrimStart(s)..TrimStart(s) + |Trim(s)|]
    ensures forall i :: 0 <= i < TrimStart(s) ==> IsTrimmable(s[i])
    ensures forall i :: TrimStart(s) + |Trim(s)| <= i < |s| ==> IsTrimmable(s[i])
  {
    var left, k := TrimLeft(s), TrimStart(s);
    var r := TrimRight(left);
    assert Trim(s) == r;
    SliceOfSuffix(s, k, |r|);
    forall i | k + |r| <= i < |s|
      ensures IsTrimmable(s[i])
    {
      assert s[i] == left[i - k];
    }
  }

  lemma SliceOfSuffix(s: string, k: nat, m: nat)
    requires k + m <= |s|
    ensures s[k..][..m] == s[k..k + m]
  {
  }

  /** What `trim` keeps begins and ends with a kept character; nothing is kept only from an all-trimmable string. */
  lemma TrimEnds(s: string)
    ensures |Trim(s)| > 0 ==> !IsTrimmable(Trim(s)[0]) && !IsTrimmable(Trim(s)[|Trim(s)| - 1])
    ensures |Trim(s)| == 0 <==> forall i :: 0 <= i < |s| ==> IsTrimmable(s[i])
  {
    var left := TrimLeft(s);
    var r := TrimRight(left);
    assert Trim(s) == r;
    if |r| > 0 {
      assert r[0] == left[0] && left[0] == s[|s| - |left|];
    }
  }

  /** `line.trim().isEmpty()`: the check the worker uses to skip lines. */
  predicate IsBlank(s: string) {
    forall i :: 0 <= i < |s| ==> IsTrimmable(s[i])
  }

  lemma IsBlankIffTrimEmpty(s: string)
    ensures IsBlank(s) <==> |Trim(s)| == 0
  {
    TrimSpec(s);
  }

  lemma TrimIdempotent(s: string)
    ensures Trim(Trim(s)) == Trim(s)
  {
    var r := Trim(s);
    if |r| > 0 {
      assert TrimLeft(r) == r;
      assert TrimRight(r) == r;
    }
  }

  // ---------------------------------------------------------------------------
  // prefixes, suffixes and ASCII lower case
  // ---------------------------------------------------------------------------

  predicate StartsWith(s: string, prefix: string) {
    |prefix| <= |s| && s[..|prefix|] == prefix
  }

  predicate EndsWith(s: string, suffix: string) {
    |suffix| <= |s| && s[|s| - |suffix|..] == suffix
  }

  function LowerChar(c: char): char {
    if 'A' <= c <= 'Z' then (c as int - 'A' as int + 'a' as int) as char else c
  }

  /** `String.toLowerCase` restricted to the ASCII letters. */
  function AsciiLower(s: string): (r: string)
    ensures |r| == |s|
    ensures forall i :: 0 <= i < |s| ==> r[i] == LowerChar(s[i])
  {
    seq(|s|, i requires 0 <= i < |s| => LowerChar(s[i]))
  }

  // ---------------------------------------------------------------------------
  // decimal (`%d`) and hexadecimal (`Integer.toHexString`) rendering
  // ---------------------------------------------------------------------------

  /** The characters `%d` and `Integer.toHexString` produce. */
  predicate IsDigitChar(c: char) {
    '0' <= c <= '9' || 'a' <= c <= 'f'
  }

  function DigitChar(d: nat): (c: char)
    requires d < 16
    ensures IsDigitChar(c)
  {
    if d < 10 then ('0' as int + d) as char else ('a' as int + d - 10) as char
  }

  function DigitValue(c: char): nat {
    if '0' <= c <= '9' then c as int - '0' as int
    else if 'a' <= c <= 'f' then c as int - 'a' as int + 10
    else 0
  }

  lemma DigitValueOfDigitChar(d: nat)
    requires d < 16
    ensures DigitValue(DigitChar(d)) == d
  {
  }

  /** The digits of `n` in `base`, most significant first, without leading zeros. */
  function ToBase(n: nat, base: nat): (r: string)
    requires 2 <= base <= 16
    ensures |r| > 0
    ensures forall i :: 0 <= i < |r| ==> IsDigitChar(r[i])
    decreases n
  {
    if n < base then [DigitChar(n)]
    else
      DivMod(n, base);
      ToBase(n / base, base) + [DigitChar(n % base)]
  }

  /** Reads a digit string in `base` back into a number. */
  function FromBase(s: string, base: nat): nat
    decreases |s|
  {
    if |s| == 0 then 0 else FromBase(s[..|s| - 1], base) * base + DigitValue(s[|s| - 1])
  }

  lemma DivMod(n: nat, base: nat)
    requires 2 <= base <= 16
    ensures n == (n / base) * base + n % base
    ensures n % base < base
    ensures n >= base ==> n / base < n
  {
  }

  lemma FromBaseSnoc(t: string, c: char, base: nat)
    ensures FromBase(t + [c], base) == FromBase(t, base) * base + DigitValue(c)
  {
    assert (t + [c])[..|t|] == t;
  }

  lemma {:induction false} FromBaseToBase(n: nat, base: nat)
    requires 2 <= base <= 16
    ensures FromBase(ToBase(n, base), base) == n
    decreases n
  {
    var r := ToBase(n, base);
    if n < base {
      DigitValueOfDigitChar(n);
      assert r[..0] == [];
    } else {
      var q, d := n / base, n % base;
      var t := ToBase(q, base);
      DivMod(n, base);
      FromBaseToBase(q, base);
      DigitValueOfDigitChar(d);
      FromBaseSnoc(t, DigitChar(d), base);
      assert FromBase(r, base) == FromBase(t, base) * base + d;
    }
  }

  /** `%d` of a non-negative number. */
  function NatToString(n: nat): (r: string)
    ensures |r| > 0
    ensures forall i :: 0 <= i < |r| ==> IsDigitChar(r[i])
  {
    ToBase(n, 10)
  }

  /** `%d` of a Java `int`: a minus sign, then the digits of the magnitude. */
  function IntToString(n: int): string {
    if n < 0 then "-" + NatToString(-n) else NatToString(n)
  }

  /** Reads `IntToString`'s format back. */
  function ParseInt(s: string): int {
    if |s| > 0 && s[0] == '-' then 0 - FromBase(s[1..], 10) else FromBase(s, 10)
  }

  lemma IntToStringRoundTrip(n: int)
    ensures ParseInt(IntToString(n)) == n
  {
    var s := IntToString(n);
    if n < 0 {
      assert s[1..] == NatToString(-n);
      FromBaseToBase(-n, 10);
    } else {
      assert IsDigitChar(s[0]);
      FromBaseToBase(n, 10);
    }
  }

  lemma IntToStringInjective(a: int, b: int)
    requires IntToString(a) == IntToString(b)
    ensures a == b
  {
    IntToStringRoundTrip(a);
    IntToStringRoundTrip(b);
  }

  /** `Integer.toHexString`: lower-case hex digits of the unsigned 32-bit pattern. */
  function ToHexString(bits: nat): (r: string)
    requires bits < 0x1_0000_0000
    ensures |r| > 0
    ensures forall i :: 0 <= i < |r| ==> IsDigitChar(r[i])
  {
    ToBase(bits, 16)
  }

  lemma ToHexStringRoundTrip(bits: nat)
    requires bits < 0x1_0000_0000
    ensures FromBase(ToHexString(bits), 16) == bits
  {
    FromBaseToBase(bits, 16);
  }

  // ---------------------------------------------------------------------------
  // hashCode
  // ---------------------------------------------------------------------------

  const TWO_TO_32: nat := 0x1_0000_0000

  /**
   * `String.hashCode` as the unsigned bit pattern of the Java `int`:
   * `h = 31 * h + c` over the characters, wrapping at 2^32.
   */
  function StringHash(s: string): (h: nat)
    ensures h < TWO_TO_32
    decreases |s|
  {
    if |s| == 0 then 0
    else (31 * StringHash(s[..|s| - 1]) + s[|s| - 1] as int) % TWO_TO_32
  }

  /** The polynomial `sum s[i] * 31^(n-1-i)` that `hashCode` documents, unreduced. */
  function HashPolynomial(s: string): nat
    decreases |s|
  {
    if |s| == 0 then 0 else 31 * HashPolynomial(s[..|s| - 1]) + s[|s| - 1] as int
  }

  lemma ModAffine(x: nat, c: nat)
    ensures (31 * (x % TWO_TO_32) + c) % TWO_TO_32 == (31 * x + c) % TWO_TO_32
  {
    var q := x / TWO_TO_32;
    assert x == q * TWO_TO_32 + x % TWO_TO_32;
    assert 31 * x + c == (31 * (x % TWO_TO_32) + c) + (31 * q) * TWO_TO_32;
  }

  lemma {:induction false} StringHashIsPolynomial(s: string)
    ensures StringHash(s) == HashPolynomial(s) % TWO_TO_32
    decreases |s|
  {
    if |s| > 0 {
      StringHashIsPolynomial(s[..|s| - 1]);
      ModAffine(HashPolynomial(s[..|s| - 1]), s[|s| - 1] as int);
    }
  }

  // ---------------------------------------------------------------------------
  // compareTo
  // ---------------------------------------------------------------------------

  /**
   * `String.compareTo`: the difference of the first differing characters, or
   * the difference of the lengths when one string is a prefix of the other.
   */
  function CompareStrings(a: string, b: string): int
    decreases |a|
  {
    if |a| == 0 || |b| == 0 then |a| - |b|
    else if a[0] != b[0] then a[0] as int - b[0] as int
    else CompareStrings(a[1..], b[1..])
  }

  /** Lexicographic "strictly before", stated independently of `CompareStrings`. */
  ghost predicate LexLess(a: string, b: string) {
    || (|a| < |b| && a == b[..|a|])
    || (exists k :: 0 <= k < |a| && k < |b| && a[..k] == b[..k] && a[k] < b[k])
  }

  lemma {:induction false} CompareStringsAntisymmetric(a: string, b: string)
    ensures CompareStrings(b, a) == -CompareStrings(a, b)
    decreases |a|
  {
    if |a| > 0 && |b| > 0 && a[0] == b[0] {
      CompareStringsAntisymmetric(a[1..], b[1..]);
    }
  }

  lemma {:induction false} CompareStringsZeroIffEqual(a: string, b: string)
    ensures CompareStrings(a, b) == 0 <==> a == b
    decreases |a|
  {
    if |a| > 0 && |b| > 0 && a[0] == b[0] {
      CompareStringsZeroIffEqual(a[1..], b[1..]);
      if a[1..] == b[1..] {
        assert a == [a[0]] + a[1..] && b == [b[0]] + b[1..];
      }
    }
  }

  lemma {:induction false} CompareStringsTransitive(a: string, b: string, c: string)
    requires CompareStrings(a, b) <= 0 && CompareStrings(b, c) <= 0
    ensures CompareStrings(a, c) <= 0
    decreases |a|
  {
    if |a| > 0 && |b| > 0 && |c| > 0 && a[0] == b[0] && b[0] == c[0] {
      CompareStringsTransitive(a[1..], b[1..], c[1..]);
    }
  }

  lemma CommonPrefixFirstChar(a: string, b: string)
    ensures forall k :: 0 < k <= |a| && k <= |b| && a[..k] == b[..k] ==> a[0] == b[0]
  {
    forall k | 0 < k <= |a| && k <= |b| && a[..k] == b[..k]
      ensures a[0] == b[0]
    {
      assert a[0] == a[..k][0];
      assert b[0] == b[..k][0];
    }
  }

  lemma CompareStringsIsLexicographic(a: string, b: string)
    ensures CompareStrings(a, b) < 0 <==> LexLess(a, b)
  {
    NegativeCompareIsLexLess(a, b);
    LexLessIsNegativeCompare(a, b);
  }

  lemma {:induction false} NegativeCompareIsLexLess(a: string, b: string)
    ensures CompareStrings(a, b) < 0 ==> LexLess(a, b)
    decreases |a|
  {
    if |a| == 0 || |b| == 0 {
    } else if a[0] != b[0] {
      assert a[..0] == b[..0];
    } else {
      var a', b' := a[1..], b[1..];
      NegativeCompareIsLexLess(a', b');
      if LexLess(a', b') {
        if |a'| < |b'| && a' == b'[..|a'|] {
          assert a == [a[0]] + a' && b[..|a|] == [b[0]] + b'[..|a'|];
        } else {
          var k :| 0 <= k < |a'| && k < |b'| && a'[..k] == b'[..k] && a'[k] < b'[k];
          assert a[..k + 1] == [a[0]] + a'[..k] && b[..k + 1] == [b[0]] + b'[..k];
        }
      }
    }
  }

  lemma {:induction false} LexLessIsNegativeCompare(a: string, b: string)
    ensures LexLess(a, b) ==> CompareStrings(a, b) < 0
    decreases |a|
  {
    if |a| == 0 || |b| == 0 {
      if |b| == 0 {
        assert !LexLess(a, b);
      }
    } else if a[0] != b[0] {
      if a[0] > b[0] {
        CommonPrefixFirstChar(a, b);
      }
    } else {
      var a', b' := a[1..], b[1..];
      LexLessIsNegativeCompare(a', b');
      if LexLess(a, b) {
        if |a| < |b| && a == b[..|a|] {
          assert a' == b'[..|a'|];
        } else {
          var k :| 0 <= k < |a| && k < |b| && a[..k] == b[..k] && a[k] < b[k];
          assert k > 0;
          assert a'[..k - 1] == a[1..k] == b[1..k] == b'[..k - 1];
        }
      }
    }
  }

  // ---------------------------------------------------------------------------
  // splitting at a separator
  // ---------------------------------------------------------------------------

  /**
   * A string built as `x + sep + y` with `sep` absent from `x` determines `x`
   * and `y`: the format strings `"%s:%d:%s"` and `"chunk-%d-%d"` are read back
   * through this.
   */
  lemma FirstSeparator(x: string, y: string, sep: char)
    requires sep !in x
    ensures (x + [sep] + y)[|x|] == sep
    ensures forall i :: 0 <= i < |x| ==> (x + [sep] + y)[i] != sep
  {
  }

  /** `%d` of a non-negative number has no sign. */
  lemma NoSignInNatural(n: int)
    requires n >= 0
    ensures '-' !in IntToString(n)
  {
    assert forall i :: 0 <= i < |IntToString(n)| ==> IsDigitChar(IntToString(n)[i]);
  }

  /** The text after a shared prefix and before the first `sep` determines the rest. */
  lemma SplitAfterPrefix(head: string, x: string, y: string, x': string, y': string, sep: char)
    requires sep !in x && sep !in x'
    requires head + x + [sep] + y == head + x' + [sep] + y'
    ensures x == x' && y == y'
  {
    assert (head + x + [sep] + y)[|head|..] == x + [sep] + y;
    assert (head + x' + [sep] + y')[|head|..] == x' + [sep] + y';
    SplitAtSeparator(x, y, x', y', sep);
  }

  /** A shared last character can be dropped. */
  lemma DropLast(a: string, b: string, c: char)
    requires a + [c] == b + [c]
    ensures a == b
  {
    assert a == (a + [c])[..|a|];
    assert b == (b + [c])[..|b|];
  }

  lemma SplitAtSeparator(x: string, y: string, x': string, y': string, sep: char)
    requires sep !in x && sep !in x'
    requires x + [sep] + y == x' + [sep] + y'
    ensures x == x' && y == y'
  {
    var s := x + [sep] + y;
    FirstSeparator(x, y, sep);
    FirstSeparator(x', y', sep);
    assert x == s[..|x|] == x';
    assert y == s[|x| + 1..] == y';
  }
}
