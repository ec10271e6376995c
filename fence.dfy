/** The regular expression /```json\n([\s\S]*?)\n```/ that the server uses to pull a JSON
    document out of a Markdown code block, written as a scan over the text. */
module Fence {
  import opened Wrappers

  /** The opening fence, including its newline. */
  const Opener: string := "```json\n"

  /** The closing fence, including the newline before it. */
  const Closer: string := "\n```"

  /** `pat` occurs in `s` starting at position `k`. */
  predicate At(s: string, k: nat, pat: string)
  {
    k + |pat| <= |s| && s[k..k + |pat|] == pat
  }

  /** The first position at or after `from` where `pat` occurs. */
  function Find(s: string, pat: string, from: nat): (r: Option<nat>)
    requires |pat| > 0
    ensures r.Some? ==> from <= r.value && At(s, r.value, pat)
    ensures r.Some? ==> forall k :: from <= k < r.value ==> !At(s, k, pat)
    ensures r.None? ==> forall k :: from <= k ==> !At(s, k, pat)
    decreases |s| - from
  {
    if from + |pat| > |s| then None
    else if At(s, from, pat) then Some(from)
    else Find(s, pat, from + 1)
  }

  /** The regular expression matches `s` with the opener at `i` and the closer at `j`. */
  ghost predicate FenceAt(s: string, i: nat, j: nat)
  {
    At(s, i, Opener) && i + |Opener| <= j && At(s, j, Closer)
  }

  /** `(i, j)` is the match the engine reports: the leftmost opener that has a match, with the
      earliest closer after it (the lazy `*?`). */
  ghost predicate FirstFence(s: string, i: nat, j: nat)
  {
    FenceAt(s, i, j) &&
    (forall i', j' :: FenceAt(s, i', j') ==> i <= i') &&
    (forall j' :: FenceAt(s, i, j') ==> j <= j')
  }

  /** `s.match(...)[1]`: the text between the first opener that has a closer after it and the
      earliest such closer, which is the match a backtracking engine reports (the leftmost
      start, then the shortest lazy capture). `None` when the expression does not match. */
  function ExtractFenced(s: string): (r: Option<string>)
    ensures r.Some? <==> exists i, j :: FenceAt(s, i, j)
    ensures r.Some? ==> exists i: nat, j: nat :: FirstFence(s, i, j) && r.value == s[i + |Opener|..j]
  {
    match Find(s, Opener, 0)
    case None => None
    case Some(i) =>
      match Find(s, Closer, i + |Opener|)
      case None =>
        None
      case Some(j) =>
        assert FirstFence(s, i, j) by {
          forall i', j' | FenceAt(s, i', j') ensures i <= i' {}
          forall j' | FenceAt(s, i, j') ensures j <= j' {}
        }
        Some(s[i + |Opener|..j])
  }

  /** `pat` occurs somewhere in `s`. */
  predicate Contains(s: string, pat: string)
  {
    exists k: nat :: k <= |s| && At(s, k, pat)
  }

  /** A document that does not itself contain a closing fence comes back whole from a fenced
      block that starts the text. */
  lemma FencedRoundTrip(t: string)
    requires !Contains(t, Closer)
    ensures ExtractFenced(Opener + t + Closer) == Some(t)
  {
    var s := Opener + t + Closer;
    var n := |Opener|;
    assert At(s, 0, Opener) by { assert s[0..n] == Opener; }
    assert At(s, n + |t|, Closer) by { assert s[n + |t|..n + |t| + |Closer|] == Closer; }
    NoCloserInside(t);
    assert Find(s, Opener, 0) == Some(0);
    assert Find(s, Closer, n) == Some(n + |t|);
    assert s[n..n + |t|] == t;
  }

  /** In a fenced document, no closing fence starts inside the wrapped text. */
  lemma NoCloserInside(t: string)
    requires !Contains(t, Closer)
    ensures forall k :: |Opener| <= k < |Opener| + |t| ==> !At(Opener + t + Closer, k, Closer)
  {
    var s := Opener + t + Closer;
    var n := |Opener|;
    forall k | n <= k < n + |t| ensures !At(s, k, Closer) {
      if k + |Closer| <= n + |t| {
        assert s[k..k + |Closer|] == t[k - n..k - n + |Closer|];
        assert !At(t, k - n, Closer);
      } else {
        var d := n + |t| - k;
        assert s[n + |t|] == '\n';
        assert Closer[d] == '`';
        assert s[k..k + |Closer|][d] == s[n + |t|];
      }
    }
  }
}
