/**
 * String helpers the source relies on from its language runtimes: Python's
 * `str.strip`, `str.lower` and `str.join`, JavaScript's `startsWith` and
 * `endsWith`, and the decimal rendering of a non-negative integer that both
 * `str(i)` and JavaScript's `name + size` perform.
 */
module Text {

  /** `s` begins with `prefix` (JavaScript `startsWith`, Python `startswith`). */
  predicate StartsWith(s: string, prefix: string) {
    |prefix| <= |s| && s[..|prefix|] == prefix
  }

  /** `s` ends with `suffix` (JavaScript `endsWith`, Python `endswith`). */
  predicate EndsWith(s: string, suffix: string) {
    |suffix| <= |s| && s[|s| - |suffix|..] == suffix
  }

  /** The characters for which Python's `str.isspace` holds; `str.strip()` removes exactly these. */
  predicate IsPySpace(c: char) {
    var u := c as int;
    (0x09 <= u <= 0x0D) || (0x1C <= u <= 0x20) || u == 0x85 || u == 0xA0 || u == 0x1680
    || (0x2000 <= u <= 0x200A) || u == 0x2028 || u == 0x2029 || u == 0x202F || u == 0x205F
    || u == 0x3000
  }

  /** Every character of `s` is whitespace (vacuously so for the empty string). */
  predicate IsBlank(s: string) {
    forall k :: 0 <= k < |s| ==> IsPySpace(s[k])
  }

  /** The first position at or after `i` that does not hold whitespace, or `|s|`. */
  function SkipSpaces(s: string, i: nat): (r: nat)
    requires i <= |s|
    ensures i <= r <= |s|
    ensures r == |s| || !IsPySpace(s[r])
    ensures forall k :: i <= k < r ==> IsPySpace(s[k])
    decreases |s| - i
  {
    if i < |s| && IsPySpace(s[i]) then SkipSpaces(s, i + 1) else i
  }

  /** The end of `s[lo..j]` once its trailing whitespace is dropped. */
  function SkipSpacesBack(s: string, lo: nat, j: nat): (r: nat)
    requires lo <= j <= |s|
    ensures lo <= r <= j
    ensures r == lo || !IsPySpace(s[r - 1])
    ensures forall k :: r <= k < j ==> IsPySpace(s[k])
  {
    if j > lo && IsPySpace(s[j - 1]) then SkipSpacesBack(s, lo, j - 1) else j
  }

  /**
   * Python's `s.strip()`: `s` is the result with whitespace before and after
   * it, and the result neither begins nor ends with whitespace.
   */
  function Strip(s: string): (r: string)
    ensures r == [] || (!IsPySpace(r[0]) && !IsPySpace(r[|r| - 1]))
    ensures exists i, j :: 0 <= i <= j <= |s| && r == s[i..j] && IsBlank(s[..i]) && IsBlank(s[j..])
  {
    var a := SkipSpaces(s, 0);
    var b := SkipSpacesBack(s, a, |s|);
    StripSplit(s, a, b);
    s[a..b]
  }

  /** What lies before `a` and from `b` on is whitespace. */
  lemma StripSplit(s: string, a: nat, b: nat)
    requires a == SkipSpaces(s, 0) && b == SkipSpacesBack(s, a, |s|)
    ensures IsBlank(s[..a]) && IsBlank(s[b..])
  {
    BlankSlice(s, 0, a);
    BlankSlice(s, b, |s|);
    assert s[..a] == s[0..a] && s[b..] == s[b..|s|];
  }

  /** A run of whitespace positions, cut out, is blank. */
  lemma BlankSlice(s: string, lo: nat, hi: nat)
    requires lo <= hi <= |s|
    requires forall k :: lo <= k < hi ==> IsPySpace(s[k])
    ensures IsBlank(s[lo..hi])
  {
    forall k | 0 <= k < hi - lo ensures IsPySpace(s[lo..hi][k]) {
      assert s[lo..hi][k] == s[lo + k];
    }
  }

  /** The stripped text is empty exactly when the whole text is whitespace. */
  lemma StripEmptyIffBlank(s: string)
    ensures Strip(s) == [] <==> IsBlank(s)
  {
    var a := SkipSpaces(s, 0);
    var b := SkipSpacesBack(s, a, |s|);
    if b == a {
      assert forall k :: 0 <= k < |s| ==> (k < a || a <= k) && IsPySpace(s[k]);
    }
  }

  /** Text that neither begins nor ends with whitespace is left as it is. */
  lemma StripUnchanged(s: string)
    requires s == [] || (!IsPySpace(s[0]) && !IsPySpace(s[|s| - 1]))
    ensures Strip(s) == s
  {
    if s != [] {
      assert SkipSpaces(s, 0) == 0;
      assert SkipSpacesBack(s, 0, |s|) == |s|;
    }
  }

  /** Stripping twice strips no more than stripping once. */
  lemma StripIdempotent(s: string)
    ensures Strip(Strip(s)) == Strip(s)
  {
    StripUnchanged(Strip(s));
  }

  /** Python's `str.lower()`, on the ASCII letters. */
  function AsciiLower(s: string): (r: string)
    ensures |r| == |s|
    ensures forall k :: 0 <= k < |s| ==> r[k] == LowerChar(s[k])
  {
    seq(|s|, k requires 0 <= k < |s| => LowerChar(s[k]))
  }

  /** One character in lower case: `A`..`Z` become `a`..`z`, everything else is kept. */
  function LowerChar(c: char): (r: char)
    ensures 'A' <= c <= 'Z' ==> 'a' <= r <= 'z' && r as int == c as int + 32
    ensures !('A' <= c <= 'Z') ==> r == c
  {
    if 'A' <= c <= 'Z' then (c as int - 'A' as int + 'a' as int) as char else c
  }

  predicate IsDigit(c: char) {
    '0' <= c <= '9'
  }

  /** The decimal digit for `d`. */
  function Digit(d: nat): (c: char)
    requires d < 10
    ensures IsDigit(c) && c as int - '0' as int == d
  {
    (d + '0' as int) as char
  }

  /**
   * The decimal rendering of `n`: Python's `str(n)` and JavaScript's
   * string conversion of a non-negative integer.
   */
  function NatToString(n: nat): (r: string)
    ensures 1 <= |r|
    ensures forall k :: 0 <= k < |r| ==> IsDigit(r[k])
    ensures n < 10 <==> |r| == 1
    ensures r[|r| - 1] == Digit(n % 10)
  {
    if n < 10 then [Digit(n)] else NatToString(n / 10) + [Digit(n % 10)]
  }

  /** Different numbers render differently. */
  lemma {:induction false} NatToStringInjective(a: nat, b: nat)
    requires NatToString(a) == NatToString(b)
    ensures a == b
  {
    var ra, rb := NatToString(a), NatToString(b);
    if a < 10 || b < 10 {
      assert a < 10 && b < 10;
    } else {
      assert ra[..|ra| - 1] == NatToString(a / 10);
      assert rb[..|rb| - 1] == NatToString(b / 10);
      NatToStringInjective(a / 10, b / 10);
      assert a % 10 == b % 10 by {
        assert Digit(a % 10) == ra[|ra| - 1] == rb[|rb| - 1] == Digit(b % 10);
      }
    }
  }

  /** Python's `sep.join(parts)`: the parts with `sep` between neighbours. */
  function Join(parts: seq<string>, sep: string): string
  {
    if |parts| == 0 then ""
    else if |parts| == 1 then parts[0]
    else parts[0] + sep + Join(parts[1..], sep)
  }
}
