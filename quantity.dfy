/** The quantity-stripping regular expression the server applies to each ingredient,
    /[\d\.\/]+\s*(cup|tsp|tbsp|g|ml|oz|lb|pc|clove|stalk)s?\s*\/i, replaced by '' (first match
    only). Every unit starts with a letter, so backtracking never helps and the match is a
    deterministic scan; `FirstQuantity` proves the scan reports the match the expression
    defines. */
module Quantity {
  import opened Wrappers
  import opened Text

  /** `[\d\.\/]`: the characters of an amount such as `1/2` or `0.5`. */
  predicate IsAmountChar(c: char)
  {
    '0' <= c <= '9' || c == '.' || c == '/'
  }

  /** The unit alternatives, in the order the expression lists them. */
  const Units: seq<string> := ["cup", "tsp", "tbsp", "g", "ml", "oz", "lb", "pc", "clove", "stalk"]

  /** Every unit is a non-empty lower-case word. */
  lemma UnitsAreWords()
    ensures forall u :: 0 <= u < |Units| ==> |Units[u]| > 0 && 'a' <= Units[u][0] <= 'z'
  {
  }

  /** Unit `u` occurs at position `w` of `s`, ignoring case. */
  predicate UnitAt(s: string, w: nat, u: string)
  {
    w + |u| <= |s| && UnitChars(s, w, u)
  }

  /** The characters of `s` from `w` on, in lower case, spell `u`. */
  predicate UnitChars(s: string, w: nat, u: string)
    decreases u
  {
    u == [] || (w < |s| && Lower(s[w]) == u[0] && UnitChars(s, w + 1, u[1..]))
  }

  /** The end of the run of amount characters that starts at `p`. */
  function AmountEnd(s: string, p: nat): (e: nat)
    requires p <= |s|
    ensures p <= e <= |s|
    decreases |s| - p
  {
    if p < |s| && IsAmountChar(s[p]) then AmountEnd(s, p + 1) else p
  }

  /** The run `AmountEnd` takes is maximal: amount characters up to its end, and none at it. */
  lemma {:induction false} AmountEndSpec(s: string, p: nat)
    requires p <= |s|
    ensures forall k :: p <= k < AmountEnd(s, p) ==> IsAmountChar(s[k])
    ensures AmountEnd(s, p) < |s| ==> !IsAmountChar(s[AmountEnd(s, p)])
    decreases |s| - p
  {
    if p < |s| && IsAmountChar(s[p]) {
      AmountEndSpec(s, p + 1);
    }
  }

  /** The end of the run of white space that starts at `p`. */
  function SpaceEnd(s: string, p: nat): (e: nat)
    requires p <= |s|
    ensures p <= e <= |s|
    decreases |s| - p
  {
    if p < |s| && IsSpace(s[p]) then SpaceEnd(s, p + 1) else p
  }

  /** The run `SpaceEnd` takes is maximal: white space up to its end, and none at it. */
  lemma {:induction false} SpaceEndSpec(s: string, p: nat)
    requires p <= |s|
    ensures forall k :: p <= k < SpaceEnd(s, p) ==> IsSpace(s[k])
    ensures SpaceEnd(s, p) < |s| ==> !IsSpace(s[SpaceEnd(s, p)])
    decreases |s| - p
  {
    if p < |s| && IsSpace(s[p]) {
      SpaceEndSpec(s, p + 1);
    }
  }

  /** The first unit, from alternative `idx` on, that occurs at `w`, as an index into `Units`. */
  function UnitFrom(s: string, w: nat, idx: nat): (r: Option<nat>)
    requires idx <= |Units|
    ensures r.Some? ==> idx <= r.value < |Units| && UnitAt(s, w, Units[r.value])
    decreases |Units| - idx
  {
    if idx == |Units| then None
    else if UnitAt(s, w, Units[idx]) then Some(idx)
    else UnitFrom(s, w, idx + 1)
  }

  /** `UnitFrom` misses no alternative: it reports none only when none occurs. */
  lemma {:induction false} UnitFromSpec(s: string, w: nat, idx: nat)
    requires idx <= |Units|
    ensures UnitFrom(s, w, idx).None? ==> forall u :: idx <= u < |Units| ==> !UnitAt(s, w, Units[u])
    decreases |Units| - idx
  {
    if idx < |Units| && !UnitAt(s, w, Units[idx]) {
      UnitFromSpec(s, w, idx + 1);
    }
  }

  /** No unit is a prefix of another, so at most one alternative occurs at a position. */
  lemma UnitsExclusive(s: string, w: nat, a: nat, b: nat)
    requires a < |Units| && b < |Units|
    requires UnitAt(s, w, Units[a]) && UnitAt(s, w, Units[b])
    ensures a == b
  {
    assert Units[a][0] == Lower(s[w]) == Units[b][0];
    if |Units[a]| >= 2 && |Units[b]| >= 2 {
      assert Units[a][1] == Lower(s[w + 1]) == Units[b][1];
    }
  }

  /** A match of the expression spans `s[p..e]`: an amount `s[p..q]`, white space `s[q..w]`,
      unit `u` at `w`, an optional `s` ending at `c`, then white space up to `e`. */
  ghost predicate TokenParts(s: string, p: nat, q: nat, w: nat, u: nat, c: nat, e: nat)
  {
    p < q <= w && u < |Units| && UnitAt(s, w, Units[u]) &&
    w + |Units[u]| <= c <= w + |Units[u]| + 1 && c <= e <= |s| &&
    (forall k :: p <= k < q ==> IsAmountChar(s[k])) &&
    (forall k :: q <= k < w ==> IsSpace(s[k])) &&
    (c == w + |Units[u]| + 1 ==> Lower(s[w + |Units[u]|]) == 's') &&
    (forall k :: c <= k < e ==> IsSpace(s[k]))
  }

  /** The expression can match `s[p..e]`. */
  ghost predicate Token(s: string, p: nat, e: nat)
  {
    exists q: nat, w: nat, u: nat, c: nat :: TokenParts(s, p, q, w, u, c, e)
  }

  /** The end of the match that the expression, tried at position `p`, reports: amounts,
      white space and the optional `s` are all taken greedily. */
  function MatchAt(s: string, p: nat): (r: Option<nat>)
    requires p <= |s|
    ensures r.Some? ==> p < r.value <= |s|
  {
    var q := AmountEnd(s, p);
    if q == p then None
    else
      var w := SpaceEnd(s, q);
      match UnitFrom(s, w, 0)
      case None => None
      case Some(u) => Some(SpaceEnd(s, PluralEnd(s, w + |Units[u]|)))
  }

  /** `s?`: the position after an optional `s` or `S` at `c0`. */
  function PluralEnd(s: string, c0: nat): (c: nat)
    requires c0 <= |s|
    ensures c0 <= c <= |s| && c <= c0 + 1
  {
    if c0 < |s| && Lower(s[c0]) == 's' then c0 + 1 else c0
  }

  /** What the scan reports at `p` is a match of the expression. */
  lemma MatchAtSound(s: string, p: nat)
    requires p <= |s| && MatchAt(s, p).Some?
    ensures Token(s, p, MatchAt(s, p).value)
  {
    var q := AmountEnd(s, p);
    var w := SpaceEnd(s, q);
    var u := UnitFrom(s, w, 0).value;
    var c := PluralEnd(s, w + |Units[u]|);
    AmountEndSpec(s, p);
    SpaceEndSpec(s, q);
    SpaceEndSpec(s, c);
    assert TokenParts(s, p, q, w, u, c, MatchAt(s, p).value);
  }

  /** A character whose lower case is a letter is neither part of an amount nor white space. */
  lemma LetterIsNotAmountOrSpace(c: char)
    requires 'a' <= Lower(c) <= 'z'
    ensures !IsAmountChar(c) && !IsSpace(c)
  {
    AsciiSpace(c);
  }

  /** An amount run that stops at `q` ends at `q`. */
  lemma {:induction false} AmountEndIs(s: string, p: nat, q: nat)
    requires p <= q <= |s| && (forall k :: p <= k < q ==> IsAmountChar(s[k]))
    requires q < |s| ==> !IsAmountChar(s[q])
    ensures AmountEnd(s, p) == q
    decreases q - p
  {
    if p < q {
      AmountEndIs(s, p + 1, q);
    }
  }

  /** A run of white space from `c` to `e` lies within the run `SpaceEnd` takes. */
  lemma {:induction false} SpaceEndCovers(s: string, c: nat, e: nat)
    requires c <= e <= |s| && (forall k :: c <= k < e ==> IsSpace(s[k]))
    ensures e <= SpaceEnd(s, c)
    decreases e - c
  {
    if c < e {
      SpaceEndCovers(s, c + 1, e);
    }
  }

  /** A white-space run that stops at `w` ends at `w`. */
  lemma SpaceEndIs(s: string, q: nat, w: nat)
    requires q <= w <= |s| && (forall k :: q <= k < w ==> IsSpace(s[k]))
    requires w < |s| ==> !IsSpace(s[w])
    ensures SpaceEnd(s, q) == w
  {
    SpaceEndCovers(s, q, w);
    SpaceEndSpec(s, q);
  }

  /** In a match, the amount and the white space after it are the maximal runs, and the unit
      is the one alternative that occurs there. */
  lemma TokenPrefix(s: string, p: nat, q: nat, w: nat, u: nat, c: nat, e: nat)
    requires TokenParts(s, p, q, w, u, c, e)
    ensures AmountEnd(s, p) == q && SpaceEnd(s, q) == w && UnitFrom(s, w, 0) == Some(u)
  {
    UnitsAreWords();
    LetterIsNotAmountOrSpace(s[w]);
    assert q < |s| ==> !IsAmountChar(s[q]) by {
      if q < w { assert IsSpace(s[q]); }
    }
    AmountEndIs(s, p, q);
    SpaceEndIs(s, q, w);
    UnitFromSpec(s, w, 0);
    UnitsExclusive(s, w, UnitFrom(s, w, 0).value, u);
  }

  /** What the scan reports once the amount, the white space and the unit are known. */
  lemma MatchAtIs(s: string, p: nat, q: nat, w: nat, u: nat)
    requires p < q <= |s| && AmountEnd(s, p) == q && SpaceEnd(s, q) == w && UnitFrom(s, w, 0) == Some(u)
    ensures MatchAt(s, p) == Some(SpaceEnd(s, PluralEnd(s, w + |Units[u]|)))
  {
  }

  /** Trailing white space after an optional `s` ending at `c` lies within what the scan takes. */
  lemma PluralCovers(s: string, c0: nat, c: nat, e: nat)
    requires c0 <= c <= c0 + 1 && c <= e <= |s|
    requires c == c0 + 1 ==> Lower(s[c0]) == 's'
    requires forall k :: c <= k < e ==> IsSpace(s[k])
    ensures e <= SpaceEnd(s, PluralEnd(s, c0))
  {
    var c' := PluralEnd(s, c0);
    if c' == c {
      SpaceEndCovers(s, c, e);
    } else {
      assert c == c0 && Lower(s[c0]) == 's';
      LetterIsNotAmountOrSpace(s[c0]);
    }
  }

  /** Whenever the expression can match at `p`, the scan finds a match there, and the one it
      reports is the longest. */
  lemma MatchAtComplete(s: string, p: nat, e: nat)
    requires Token(s, p, e)
    ensures p <= |s| && MatchAt(s, p).Some? && e <= MatchAt(s, p).value
  {
    var q: nat, w: nat, u: nat, c: nat :| TokenParts(s, p, q, w, u, c, e);
    MatchAtCompleteParts(s, p, q, w, u, c, e);
  }

  lemma MatchAtCompleteParts(s: string, p: nat, q: nat, w: nat, u: nat, c: nat, e: nat)
    requires TokenParts(s, p, q, w, u, c, e)
    ensures p <= |s| && MatchAt(s, p).Some? && e <= MatchAt(s, p).value
  {
    TokenPrefix(s, p, q, w, u, c, e);
    MatchAtIs(s, p, q, w, u);
    PluralCovers(s, w + |Units[u]|, c, e);
  }

  /** The outcome of trying the expression at each position of `s`, from 0 to `|s|`. */
  function Attempts(s: string): (a: seq<Option<nat>>)
    ensures |a| == |s| + 1 && forall p :: 0 <= p <= |s| ==> a[p] == MatchAt(s, p)
  {
    seq(|s| + 1, p requires 0 <= p <= |s| => MatchAt(s, p))
  }

  /** The first attempt at or after `from` that found a match, with the end of that match:
      the engine tries one position after another. */
  function FirstFound(attempts: seq<Option<nat>>, from: nat): (r: Option<(nat, nat)>)
    requires from <= |attempts|
    ensures r.Some? ==> from <= r.value.0 < |attempts| && attempts[r.value.0] == Some(r.value.1)
    decreases |attempts| - from
  {
    if from == |attempts| then None
    else match attempts[from]
      case Some(e) => Some((from, e))
      case None => FirstFound(attempts, from + 1)
  }

  /** The search skips only attempts that found nothing. */
  lemma {:induction false} FirstFoundLeftmost(attempts: seq<Option<nat>>, from: nat)
    requires from <= |attempts|
    ensures FirstFound(attempts, from).Some? ==>
      forall p :: from <= p < FirstFound(attempts, from).value.0 ==> attempts[p].None?
    ensures FirstFound(attempts, from).None? ==> forall p :: from <= p < |attempts| ==> attempts[p].None?
    decreases |attempts| - from
  {
    if from < |attempts| && attempts[from].None? {
      FirstFoundLeftmost(attempts, from + 1);
    }
  }

  /** The match `String.prototype.replace` removes, as the start and end of the removed span. */
  function FirstQuantity(s: string): (r: Option<(nat, nat)>)
    ensures r.Some? ==> r.value.0 < r.value.1 <= |s|
  {
    FirstFound(Attempts(s), 0)
  }

  /** `FirstQuantity` reports what the expression defines: `None` exactly when it matches
      nowhere, and otherwise a match at the leftmost position where it can match, the longest
      one there. */
  lemma FirstQuantityIsRegexMatch(s: string)
    ensures FirstQuantity(s).None? <==> forall p: nat, e: nat :: !Token(s, p, e)
    ensures FirstQuantity(s).Some? ==> Token(s, FirstQuantity(s).value.0, FirstQuantity(s).value.1)
    ensures FirstQuantity(s).Some? ==> forall p: nat, e: nat :: Token(s, p, e) ==>
      FirstQuantity(s).value.0 < p || (p == FirstQuantity(s).value.0 && e <= FirstQuantity(s).value.1)
  {
    if FirstQuantity(s).Some? {
      FirstQuantitySound(s);
    }
    forall p: nat, e: nat | Token(s, p, e)
      ensures FirstQuantity(s).Some? &&
        (FirstQuantity(s).value.0 < p || (p == FirstQuantity(s).value.0 && e <= FirstQuantity(s).value.1))
    {
      FirstQuantityCovers(s, p, e);
    }
  }

  /** The span the search reports is a match of the expression. */
  lemma FirstQuantitySound(s: string)
    requires FirstQuantity(s).Some?
    ensures Token(s, FirstQuantity(s).value.0, FirstQuantity(s).value.1)
  {
    var r := FirstQuantity(s);
    assert Attempts(s)[r.value.0] == MatchAt(s, r.value.0);
    MatchAtSound(s, r.value.0);
  }

  /** A match of the expression at `p` starts no earlier than the reported one, and if it
      starts at the same place it ends no later. */
  lemma FirstQuantityCovers(s: string, p: nat, e: nat)
    requires Token(s, p, e)
    ensures FirstQuantity(s).Some?
    ensures FirstQuantity(s).value.0 < p || (p == FirstQuantity(s).value.0 && e <= FirstQuantity(s).value.1)
  {
    var a := Attempts(s);
    FirstFoundLeftmost(a, 0);
    MatchAtComplete(s, p, e);
    assert a[p] == MatchAt(s, p);
  }

  /** `ing.replace(pattern, '')`: removes the first quantity-and-unit, wherever it is. */
  function StripQuantity(s: string): (r: string)
    ensures FirstQuantity(s).None? ==> r == s
    ensures FirstQuantity(s).Some? ==> |r| < |s|
    ensures FirstQuantity(s).Some? ==> r == s[..FirstQuantity(s).value.0] + s[FirstQuantity(s).value.1..]
  {
    match FirstQuantity(s)
    case None => s
    case Some((p, e)) => s[..p] + s[e..]
  }

  /** What one ingredient entry becomes: `ing.replace(pattern, '').trim()`. */
  function CleanEntry(s: string): (r: string)
    ensures NoEdgeSpace(r) && |r| <= |s|
  {
    Trim(StripQuantity(s))
  }

  /** A text in which the expression matches nowhere is only trimmed. */
  lemma NoQuantityOnlyTrims(s: string)
    requires forall p, e :: !Token(s, p, e)
    ensures CleanEntry(s) == Trim(s)
  {
    FirstQuantityIsRegexMatch(s);
  }

  /** In "2 cups flour" the expression matches "2 cups ", at the start. */
  lemma QuantityOfCups()
    ensures FirstQuantity("2 cups flour") == Some((0, 7))
  {
    var s := "2 cups flour";
    assert s[0] == '2' && s[1] == ' ' && s[2] == 'c' && s[3] == 'u' && s[4] == 'p' && s[5] == 's' && s[6] == ' ' && s[7] == 'f';
    AmountEndIs(s, 0, 1);
    SpaceEndIs(s, 1, 2);
    assert UnitAt(s, 2, Units[0]);
    assert UnitFrom(s, 2, 0) == Some(0);
    SpaceEndIs(s, 6, 7);
    assert MatchAt(s, 0) == Some(7);
  }

  /** Worked case: the amount and the plural unit go, with the space after them. */
  lemma CleanEntryCups()
    ensures CleanEntry("2 cups flour") == "flour"
  {
    var s := "2 cups flour";
    QuantityOfCups();
    assert s[..0] + s[7..] == "flour";
    assert NoEdgeSpace("flour");
    TrimFixed("flour");
  }

  /** In "2 garlic" the expression matches "2 g", at the start: `g` is a unit. */
  lemma QuantityOfGarlic()
    ensures FirstQuantity("2 garlic") == Some((0, 3))
  {
    var s := "2 garlic";
    assert s[0] == '2' && s[1] == ' ' && s[2] == 'g' && s[3] == 'a';
    AmountEndIs(s, 0, 1);
    SpaceEndIs(s, 1, 2);
    assert Units[0][0] == 'c' && Units[1][0] == 't' && Units[2][0] == 't';
    assert !UnitAt(s, 2, Units[0]) && !UnitAt(s, 2, Units[1]) && !UnitAt(s, 2, Units[2]);
    assert UnitAt(s, 2, Units[3]);
    assert UnitFrom(s, 2, 0) == Some(3);
    SpaceEndIs(s, 3, 3);
    assert MatchAt(s, 0) == Some(3);
  }

  /** Worked case: a word that starts like the unit `g` loses its first letter. */
  lemma CleanEntryGarlic()
    ensures CleanEntry("2 garlic") == "arlic"
  {
    var s := "2 garlic";
    QuantityOfGarlic();
    assert s[..0] + s[3..] == "arlic";
    assert NoEdgeSpace("arlic");
    TrimFixed("arlic");
  }
}
