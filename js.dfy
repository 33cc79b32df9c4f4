/** The JavaScript string and number primitives the user service relies on:
    `trim`, `toLowerCase`, `includes`, `startsWith`, the regular-expression
    classes `\d` and `\s`, the `%` operator and the decimal text a number
    takes inside a template string. */
module Js {

  // ---------------------------------------------------------------- whitespace

  /** ECMAScript WhiteSpace and LineTerminator code points: the set that
      `String.prototype.trim` strips and that the regular-expression class `\s`
      matches. */
  predicate IsSpace(c: char)
  {
    c == '\t' || c == '\n' || c == '\U{000B}' || c == '\U{000C}' || c == '\r' || c == ' '
    || c == '\U{00A0}' || c == '\U{1680}' || ('\U{2000}' <= c <= '\U{200A}')
    || c == '\U{2028}' || c == '\U{2029}' || c == '\U{202F}' || c == '\U{205F}'
    || c == '\U{3000}' || c == '\U{FEFF}'
  }

  predicate AllSpace(s: string)
  {
    forall i :: 0 <= i < |s| ==> IsSpace(s[i])
  }

  /** How many whitespace characters `s` starts with. */
  function LeadingSpaces(s: string): (k: nat)
    ensures k <= |s|
    ensures forall i :: 0 <= i < k ==> IsSpace(s[i])
    ensures k < |s| ==> !IsSpace(s[k])
  {
    if s != [] && IsSpace(s[0]) then 1 + LeadingSpaces(s[1..]) else 0
  }

  /** How many whitespace characters `s` ends with. */
  function TrailingSpaces(s: string): (k: nat)
    ensures k <= |s|
    ensures forall i :: |s| - k <= i < |s| ==> IsSpace(s[i])
    ensures k < |s| ==> !IsSpace(s[|s| - 1 - k])
  {
    if s != [] && IsSpace(s[|s| - 1]) then 1 + TrailingSpaces(s[..|s| - 1]) else 0
  }

  /** The leading count is the position of the first non-whitespace character. */
  lemma LeadingSpacesUnique(s: string, k: nat)
    requires k <= |s| && (forall i :: 0 <= i < k ==> IsSpace(s[i])) && (k < |s| ==> !IsSpace(s[k]))
    ensures LeadingSpaces(s) == k
  {
  }

  /** The trailing count is the distance from the end to the last non-whitespace character. */
  lemma TrailingSpacesUnique(s: string, k: nat)
    requires k <= |s| && (forall i :: |s| - k <= i < |s| ==> IsSpace(s[i]))
    requires k < |s| ==> !IsSpace(s[|s| - 1 - k])
    ensures TrailingSpaces(s) == k
  {
  }

  /** `s` without its leading whitespace. */
  function TrimStart(s: string): (r: string)
  {
    s[LeadingSpaces(s)..]
  }

  /** `s` without its trailing whitespace. */
  function TrimEnd(s: string): (r: string)
  {
    s[..|s| - TrailingSpaces(s)]
  }

  /** `String.prototype.trim`. */
  function Trim(s: string): (r: string)
    ensures |r| <= |s|
  {
    TrimEnd(TrimStart(s))
  }

  /** The trimmed string is a slice of the input with only whitespace cut off
      at either end, and it neither starts nor ends with whitespace. */
  lemma TrimIsCore(s: string)
    ensures exists i, j ::
      0 <= i <= j <= |s| && Trim(s) == s[i..j] && AllSpace(s[..i]) && AllSpace(s[j..])
    ensures Trim(s) != [] ==> !IsSpace(Trim(s)[0]) && !IsSpace(Trim(s)[|Trim(s)| - 1])
  {
    var i := LeadingSpaces(s);
    var t := s[i..];
    var b := TrailingSpaces(t);
    var j := |s| - b;
    assert Trim(s) == t[..|t| - b] == s[i..j];
    assert AllSpace(s[j..]) by {
      forall q | 0 <= q < |s[j..]| ensures IsSpace(s[j..][q]) {
        assert s[j..][q] == t[|t| - b + q];
      }
    }
    assert AllSpace(s[..i]) by {
      forall q | 0 <= q < i ensures IsSpace(s[..i][q]) {
        assert s[..i][q] == s[q];
      }
    }
    assert i < j ==> Trim(s)[0] == s[i] && Trim(s)[j - i - 1] == t[|t| - 1 - b];
  }

  /** A trimmed string is empty exactly when the input is all whitespace. */
  lemma TrimEmptyIffAllSpace(s: string)
    ensures Trim(s) == [] <==> AllSpace(s)
  {
    var i := LeadingSpaces(s);
    var t := s[i..];
    if AllSpace(s) {
      LeadingSpacesUnique(s, |s|);
    }
    if Trim(s) == [] {
      assert TrailingSpaces(t) == |t|;
      assert i == |s|;
    }
  }

  /** Whitespace in front of a string is all that `trimStart` removes from it. */
  lemma TrimStartAfterSpace(w: string, x: string)
    requires AllSpace(w)
    ensures TrimStart(w + x) == TrimStart(x)
  {
    var k := LeadingSpaces(x);
    forall i | 0 <= i < |w| + k ensures IsSpace((w + x)[i]) {
      if i >= |w| {
        assert (w + x)[i] == x[i - |w|];
      }
    }
    assert |w| + k < |w + x| ==> (w + x)[|w| + k] == x[k];
    LeadingSpacesUnique(w + x, |w| + k);
    assert (w + x)[|w| + k..] == x[k..];
  }

  /** Appending to a string that is not all whitespace leaves its leading
      whitespace alone. */
  lemma TrimStartBeforeText(x: string, y: string)
    requires !AllSpace(x)
    ensures TrimStart(x + y) == TrimStart(x) + y
  {
    var k := LeadingSpaces(x);
    assert k < |x|;
    assert (x + y)[k] == x[k];
    LeadingSpacesUnique(x + y, k);
    assert (x + y)[k..] == x[k..] + y;
  }

  /** Whitespace after a string that is not all whitespace is all that
      `trimEnd` removes from it. */
  lemma TrimEndBeforeSpace(x: string, w: string)
    requires !AllSpace(x) && AllSpace(w)
    ensures TrimEnd(x + w) == TrimEnd(x)
  {
    var k := TrailingSpaces(x);
    assert k < |x|;
    var s := x + w;
    forall i | |s| - (k + |w|) <= i < |s| ensures IsSpace(s[i]) {
      if i < |x| {
        assert s[i] == x[i];
      } else {
        assert s[i] == w[i - |x|];
      }
    }
    assert s[|s| - 1 - (k + |w|)] == x[|x| - 1 - k];
    TrailingSpacesUnique(s, k + |w|);
    assert s[..|s| - (k + |w|)] == x[..|x| - k];
  }

  /** Whitespace around a string never survives trimming. */
  lemma TrimIgnoresPadding(w1: string, t: string, w2: string)
    requires AllSpace(w1) && AllSpace(w2)
    ensures Trim(w1 + t + w2) == Trim(t)
  {
    assert w1 + t + w2 == w1 + (t + w2);
    TrimStartAfterSpace(w1, t + w2);
    if AllSpace(t) {
      assert AllSpace(t + w2) by {
        forall i | 0 <= i < |t + w2| ensures IsSpace((t + w2)[i]) {
          if i >= |t| {
            assert (t + w2)[i] == w2[i - |t|];
          }
        }
      }
      TrimEmptyIffAllSpace(t + w2);
      TrimEmptyIffAllSpace(t);
    } else {
      TrimStartBeforeText(t, w2);
      var k := LeadingSpaces(t);
      assert TrimStart(t)[0] == t[k];
      TrimEndBeforeSpace(TrimStart(t), w2);
    }
  }

  // ---------------------------------------------------------------- case

  /** `toLowerCase` on one character, for the ASCII letters only. */
  function LowerChar(c: char): (r: char)
  {
    if 'A' <= c <= 'Z' then (c as int + 32) as char else c
  }

  /** `String.prototype.toLowerCase`, restricted to ASCII case mapping. */
  function Lower(s: string): (r: string)
    ensures |r| == |s|
    ensures forall i :: 0 <= i < |s| ==> r[i] == LowerChar(s[i])
  {
    seq(|s|, i requires 0 <= i < |s| => LowerChar(s[i]))
  }

  /** Lowering changes no whitespace, and lowering twice is lowering once. */
  lemma LowerCharFacts(c: char)
    ensures IsSpace(LowerChar(c)) <==> IsSpace(c)
    ensures LowerChar(LowerChar(c)) == LowerChar(c)
    ensures !('A' <= LowerChar(c) <= 'Z')
  {
  }

  lemma LowerIdempotent(s: string)
    ensures Lower(Lower(s)) == Lower(s)
  {
    forall i | 0 <= i < |s| ensures Lower(Lower(s))[i] == Lower(s)[i] {
      LowerCharFacts(s[i]);
    }
  }

  lemma LowerAllSpace(s: string)
    ensures AllSpace(Lower(s)) <==> AllSpace(s)
  {
    forall i | 0 <= i < |s| ensures IsSpace(Lower(s)[i]) <==> IsSpace(s[i]) {
      LowerCharFacts(s[i]);
    }
  }

  // ---------------------------------------------------------------- search

  /** `hay.includes(needle)`: `needle` occurs in `hay` as a contiguous block. */
  predicate Includes(hay: string, needle: string)
  {
    exists i :: 0 <= i <= |hay| && needle <= hay[i..]
  }

  /** Every string includes the empty string. */
  lemma IncludesEmpty(hay: string)
    ensures Includes(hay, [])
  {
    assert [] <= hay[0..];
  }

  /** `s.startsWith(prefix)`. */
  predicate StartsWith(s: string, prefix: string)
  {
    prefix <= s
  }

  /** `s.indexOf(c)`, with `|s|` standing for "not found" (JavaScript's -1). */
  function IndexOf(s: string, c: char): (k: nat)
    ensures k <= |s|
    ensures k < |s| ==> s[k] == c
    ensures forall i :: 0 <= i < k ==> s[i] != c
  {
    if s == [] || s[0] == c then 0 else 1 + IndexOf(s[1..], c)
  }

  /** `s.lastIndexOf(c)`: -1 when `c` does not occur. */
  function LastIndexOf(s: string, c: char): (k: int)
    ensures -1 <= k < |s|
    ensures k >= 0 ==> s[k] == c
    ensures forall i :: k < i < |s| ==> s[i] != c
  {
    if s == [] then -1
    else if s[|s| - 1] == c then |s| - 1
    else LastIndexOf(s[..|s| - 1], c)
  }

  /** The first `c` in `x + y` is the first of `y` when `x` has none. */
  lemma IndexOfAppend(x: string, y: string, c: char)
    requires c !in x && y != [] && y[0] == c
    ensures IndexOf(x + y, c) == |x|
  {
    var s := x + y;
    assert s[|x|] == c;
    forall i | 0 <= i < |x| ensures s[i] != c {
      assert s[i] == x[i];
    }
  }

  /** The last `c` in `x + [c] + z` is the one shown when `z` has none. */
  lemma {:induction false} LastIndexOfAppend(x: string, c: char, z: string)
    requires c !in z
    ensures LastIndexOf(x + [c] + z, c) == |x|
  {
    var s := x + [c] + z;
    if z != [] {
      var z' := z[..|z| - 1];
      assert s[|s| - 1] == z[|z| - 1];
      assert s[..|s| - 1] == x + [c] + z';
      LastIndexOfAppend(x, c, z');
    }
  }

  // ---------------------------------------------------------------- numbers

  /** `\d`: the ASCII decimal digits. */
  predicate IsDigit(c: char)
  {
    '0' <= c <= '9'
  }

  function DigitChar(d: nat): (c: char)
    requires d < 10
    ensures IsDigit(c)
  {
    ('0' as int + d) as char
  }

  function DigitValue(c: char): (d: nat)
    requires IsDigit(c)
    ensures d < 10 && DigitChar(d) == c
  {
    c as int - '0' as int
  }

  predicate AllDigits(s: string)
  {
    forall i :: 0 <= i < |s| ==> IsDigit(s[i])
  }

  /** The decimal text of a non-negative integer, as a template string writes it:
      no sign, no leading zeros. */
  function NatToDecimal(n: nat): (r: string)
    ensures r != [] && AllDigits(r)
    ensures |r| > 1 ==> r[0] != '0'
  {
    if n < 10 then [DigitChar(n)] else NatToDecimal(n / 10) + [DigitChar(n % 10)]
  }

  /** The number a string of decimal digits denotes. */
  function DecimalValue(s: string): nat
    requires AllDigits(s)
  {
    if s == [] then 0 else DecimalValue(s[..|s| - 1]) * 10 + DigitValue(s[|s| - 1])
  }

  /** Reading back the decimal text of a number gives the number. */
  lemma {:induction false} DecimalRoundTrip(n: nat)
    ensures DecimalValue(NatToDecimal(n)) == n
  {
    var r := NatToDecimal(n);
    if n < 10 {
      assert r[..0] == [];
    } else {
      DecimalRoundTrip(n / 10);
      assert r[..|r| - 1] == NatToDecimal(n / 10);
    }
  }

  /** Distinct numbers have distinct decimal texts. */
  lemma DecimalInjective(m: nat, n: nat)
    requires m != n
    ensures NatToDecimal(m) != NatToDecimal(n)
  {
    DecimalRoundTrip(m);
    DecimalRoundTrip(n);
  }

  /** The decimal text of any integer, with a leading `-` for negatives. */
  function IntToDecimal(n: int): (r: string)
    ensures n >= 0 ==> r == NatToDecimal(n)
    ensures n < 0 ==> |r| > 1 && r[0] == '-' && r[1..] == NatToDecimal(-n)
  {
    if n < 0 then "-" + NatToDecimal(-n) else NatToDecimal(n)
  }

  /** JavaScript's `a % n` on integers: the remainder of division truncated
      toward zero, so it takes the sign of `a` (Dafny's `%` is Euclidean). */
  function JsRemainder(a: int, n: nat): (r: int)
    requires n > 0
    ensures -(n as int) < r < n
    ensures a >= 0 ==> r >= 0
    ensures a <= 0 ==> r <= 0
    ensures a >= 0 ==> r == a % n
    ensures a == (if a >= 0 then a / n else -((-a) / n)) * n + r
  {
    if a >= 0 then a % n else -((-a) % n)
  }
}
