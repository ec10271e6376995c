/** Strings as JavaScript sees them in this program: white space, trimming, joining,
    decimal rendering of integers and ASCII case mapping. */
module Text {

  /** The code points JavaScript counts as white space: WhiteSpace and LineTerminator of
      ECMAScript. `\s` in a regular expression and `String.prototype.trim` use this set. */
  const WideSpaces: set<char> := {
    '\U{A0}', '\U{1680}',
    '\U{2000}', '\U{2001}', '\U{2002}', '\U{2003}', '\U{2004}', '\U{2005}', '\U{2006}',
    '\U{2007}', '\U{2008}', '\U{2009}', '\U{200A}',
    '\U{2028}', '\U{2029}', '\U{202F}', '\U{205F}', '\U{3000}', '\U{FEFF}'}

  predicate IsSpace(c: char)
  {
    if c < '\U{A0}' then c == ' ' || '\t' <= c <= '\r' else c in WideSpaces
  }

  /** Among ASCII characters, white space is the space and tab to carriage return. */
  lemma AsciiSpace(c: char)
    requires c < '\U{80}'
    ensures IsSpace(c) <==> c == ' ' || '\t' <= c <= '\r'
  {
  }

  /** Every character of `s` is white space. */
  predicate AllSpace(s: string)
  {
    forall i :: 0 <= i < |s| ==> IsSpace(s[i])
  }

  /** `s` neither starts nor ends with white space. */
  predicate NoEdgeSpace(s: string)
  {
    s == [] || (!IsSpace(s[0]) && !IsSpace(s[|s| - 1]))
  }

  /** The position of the first character at or after `i` that is not white space, or `|s|`. */
  function LeadingSpace(s: string, i: nat): (a: nat)
    requires i <= |s|
    ensures i <= a <= |s|
    ensures forall k :: i <= k < a ==> IsSpace(s[k])
    ensures a < |s| ==> !IsSpace(s[a])
    decreases |s| - i
  {
    if i < |s| && IsSpace(s[i]) then LeadingSpace(s, i + 1) else i
  }

  /** The position, no lower than `a`, where the white space at the end of `s[..j]` begins. */
  function TrailingSpace(s: string, a: nat, j: nat): (b: nat)
    requires a <= j <= |s|
    ensures a <= b <= j
    ensures forall k :: b <= k < j ==> IsSpace(s[k])
    ensures b > a ==> !IsSpace(s[b - 1])
    decreases j
  {
    if j > a && IsSpace(s[j - 1]) then TrailingSpace(s, a, j - 1) else j
  }

  /** `String.prototype.trim`: what is left of `s` once the white space at both ends is gone. */
  function Trim(s: string): (r: string)
    ensures |r| <= |s| && NoEdgeSpace(r)
  {
    var a := LeadingSpace(s, 0);
    var b := TrailingSpace(s, a, |s|);
    assert b > a ==> s[a..b][0] == s[a] && s[a..b][b - a - 1] == s[b - 1];
    s[a..b]
  }

  /** The trim is a slice of the input with only white space on either side of it. */
  lemma TrimShape(s: string)
    ensures var a := LeadingSpace(s, 0);
      a + |Trim(s)| <= |s| && Trim(s) == s[a..a + |Trim(s)|] &&
      (forall k :: 0 <= k < a ==> IsSpace(s[k])) &&
      (forall k :: a + |Trim(s)| <= k < |s| ==> IsSpace(s[k]))
  {
    var a := LeadingSpace(s, 0);
    var b := TrailingSpace(s, a, |s|);
    assert Trim(s) == s[a..b];
  }

  /** A string is its own trim exactly when it has no white space at either end. */
  lemma TrimFixed(s: string)
    ensures Trim(s) == s <==> NoEdgeSpace(s)
  {
    if NoEdgeSpace(s) && s != [] {
      var a := LeadingSpace(s, 0);
      var b := TrailingSpace(s, a, |s|);
      assert a == 0;
      assert b == |s|;
      assert s[0..|s|] == s;
    }
  }

  /** A trim is empty exactly when the string is all white space. */
  lemma TrimEmpty(s: string)
    ensures Trim(s) == [] <==> AllSpace(s)
  {
    var a := LeadingSpace(s, 0);
    var b := TrailingSpace(s, a, |s|);
    if AllSpace(s) {
      assert a == |s|;
    }
    if b == a {
      forall k | 0 <= k < |s| ensures IsSpace(s[k]) {
        assert k < a || b <= k;
      }
    }
  }

  /** Trimming a string padded with white space gives back the string, provided it has no
      white space at its own ends. */
  lemma TrimPadded(pad1: string, t: string, pad2: string)
    requires AllSpace(pad1) && AllSpace(pad2) && NoEdgeSpace(t)
    ensures Trim(pad1 + t + pad2) == t
  {
    var s := pad1 + t + pad2;
    var a := LeadingSpace(s, 0);
    var b := TrailingSpace(s, a, |s|);
    assert forall k :: 0 <= k < |pad1| ==> s[k] == pad1[k];
    assert forall k :: |pad1| + |t| <= k < |s| ==> s[k] == pad2[k - |pad1| - |t|];
    if t == [] {
      assert a == |s|;
      assert s[a..b] == [];
    } else {
      assert s[|pad1|] == t[0] && s[|pad1| + |t| - 1] == t[|t| - 1];
      assert a == |pad1|;
      assert b == |pad1| + |t|;
      assert s[a..b] == t;
    }
  }

  /** `parts.join(sep)`. */
  function Join(parts: seq<string>, sep: string): string
  {
    if |parts| == 0 then ""
    else if |parts| == 1 then parts[0]
    else parts[0] + sep + Join(parts[1..], sep)
  }

  /** The decimal digit for `d`. */
  function Digit(d: nat): char
    requires d < 10
  {
    "0123456789"[d]
  }

  /** The decimal text of `n`, without leading zeros. */
  function NatText(n: nat): (r: string)
    ensures |r| > 0 && (forall i :: 0 <= i < |r| ==> '0' <= r[i] <= '9')
    ensures r[0] == '0' ==> n == 0
  {
    if n < 10 then [Digit(n)] else NatText(n / 10) + [Digit(n % 10)]
  }

  /** The value of a string of decimal digits: the partner of `NatText`. */
  function DigitsValue(s: string): nat
    requires forall i :: 0 <= i < |s| ==> '0' <= s[i] <= '9'
  {
    if s == [] then 0 else 10 * DigitsValue(s[..|s| - 1]) + (s[|s| - 1] as int - '0' as int)
  }

  /** Reading back the decimal text of `n` gives `n`. */
  lemma {:induction false} NatTextRoundTrip(n: nat)
    ensures DigitsValue(NatText(n)) == n
  {
    if n >= 10 {
      var t := NatText(n);
      assert t[..|t| - 1] == NatText(n / 10);
      NatTextRoundTrip(n / 10);
    }
  }

  /** `String(n)` for an integer `n`. */
  function IntText(n: int): string
  {
    if n < 0 then "-" + NatText(-n) else NatText(n)
  }

  /** ASCII lower case of one character. */
  function Lower(c: char): char
  {
    if 'A' <= c <= 'Z' then (c as int + 32) as char else c
  }

  /** ASCII upper case of one character. */
  function Upper(c: char): char
  {
    if 'a' <= c <= 'z' then (c as int - 32) as char else c
  }

  /** `s.toLowerCase()`, ASCII letters only. */
  function LowerText(s: string): (r: string)
    ensures |r| == |s| && forall i :: 0 <= i < |s| ==> r[i] == Lower(s[i])
  {
    seq(|s|, i requires 0 <= i < |s| => Lower(s[i]))
  }

  /** Lower-casing an upper-cased character is lower-casing it. */
  lemma LowerUpper(c: char)
    ensures Lower(Upper(c)) == Lower(c)
  {
  }

  /** `s.substring(a, b)` with `0 <= a <= b`: both ends are clamped to the length. */
  function Substring(s: string, a: nat, b: nat): (r: string)
    requires a <= b
    ensures |r| <= b - a
  {
    var hi := if b < |s| then b else |s|;
    var lo := if a < hi then a else hi;
    s[lo..hi]
  }
}
