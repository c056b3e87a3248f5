/** Shortening one message to a character budget, around the first search term if there is one. */
module Excerpt {
  import opened Basics
  import opened Text

  const ELLIPSIS := "..."

  function TakeFirst(s: string, n: nat): string { if |s| <= n then s else s[..n] }

  function TakeLast(s: string, n: nat): string { if |s| <= n then s else s[|s| - n..] }

  /** The smallest first occurrence over all terms. */
  function EarliestMatch(lower: string, terms: seq<string>): (r: Option<nat>)
    ensures r.Some? ==> r.value <= |lower|
  {
    if terms == [] then None
    else
      var best, found := EarliestMatch(lower, terms[..|terms| - 1]), Find(lower, terms[|terms| - 1]);
      if found.None? then best
      else if best.Some? && best.value <= found.value then best
      else found
  }

  function WindowStart(at: nat, maxChars: nat): nat { SaturatingSub(at, maxChars / 2 / 2) }

  function WindowEnd(s: string, at: nat, maxChars: nat): nat { Min(WindowStart(at, maxChars) + maxChars, |s|) }

  function Around(s: string, at: nat, maxChars: nat): string
    requires at <= |s| && maxChars < |s|
  {
    var start, end := WindowStart(at, maxChars), WindowEnd(s, at, maxChars);
    (if start > 0 then ELLIPSIS else "") + Trim(s[start..end], Whitespace) + (if end < |s| then ELLIPSIS else "")
  }

  function HeadAndTail(s: string, maxChars: nat): string {
    var head := maxChars / 2;
    TrimEnd(TakeFirst(s, head), Whitespace) + ELLIPSIS
    + TrimStart(TakeLast(s, SaturatingSub(maxChars, head + 3)), Whitespace)
  }

  function Compacted(content: string, terms: seq<string>, maxChars: nat): string {
    var trimmed := Trim(content, Whitespace);
    if |trimmed| <= maxChars then trimmed
    else
      match EarliestMatch(Lower(trimmed), terms)
      case Some(at) => Around(trimmed, at, maxChars)
      case None => HeadAndTail(trimmed, maxChars)
  }

  /** compact_history_message */
  method CompactHistoryMessage(content: string, terms: seq<string>, maxChars: nat) returns (r: string)
    ensures r == Compacted(content, terms, maxChars)
  {
    var trimmed := Trim(content, Whitespace);
    if |trimmed| <= maxChars { return trimmed; }
    var bestMatch := FindEarliest(Lower(trimmed), terms);
    if bestMatch.Some? {
      r := CutAround(trimmed, bestMatch.value, maxChars);
    } else {
      r := HeadAndTail(trimmed, maxChars);
    }
  }

  method CutAround(s: string, at: nat, maxChars: nat) returns (output: string)
    requires at <= |s| && maxChars < |s|
    ensures output == Around(s, at, maxChars)
  {
    var start := SaturatingSub(at, maxChars / 2 / 2);
    var end := Min(start + maxChars, |s|);
    var excerpt := Trim(s[start..end], Whitespace);
    output := if start > 0 then ELLIPSIS else "";
    output := output + excerpt;
    output := output + if end < |s| then ELLIPSIS else "";
  }

  /** The loop over the query terms. */
  method FindEarliest(lower: string, terms: seq<string>) returns (bestMatch: Option<nat>)
    ensures bestMatch == EarliestMatch(lower, terms)
  {
    bestMatch := None;
    for i := 0 to |terms|
      invariant bestMatch == EarliestMatch(lower, terms[..i])
    {
      assert terms[..i + 1][..i] == terms[..i];
      var found := Find(lower, terms[i]);
      if found.Some? {
        bestMatch := if bestMatch.Some? && bestMatch.value <= found.value then bestMatch else found;
      }
    }
    assert terms[..|terms|] == terms;
  }

  // The match

  /** A match is where some term occurs and no term occurs earlier; no match means no term occurs. */
  lemma {:induction false} EarliestMeans(lower: string, terms: seq<string>)
    ensures match EarliestMatch(lower, terms)
            case Some(at) =>
              && (exists t :: t in terms && OccursAt(lower, t, at))
              && forall t, j :: t in terms && 0 <= j < at ==> !OccursAt(lower, t, j)
            case None => forall t, j :: t in terms ==> !OccursAt(lower, t, j)
  {
    if terms != [] {
      var init, last := terms[..|terms| - 1], terms[|terms| - 1];
      assert terms == init + [last];
      EarliestMeans(lower, init);
      FindMeans(lower, last);
      assert last in terms;
      var best := EarliestMatch(lower, init);
      if best.Some? {
        var t :| t in init && OccursAt(lower, t, best.value);
        assert t in terms;
      }
    }
  }

  /** Text that fits is shown whole. */
  lemma ShownWhole(content: string, terms: seq<string>, maxChars: nat)
    requires |Trim(content, Whitespace)| <= maxChars
    ensures Compacted(content, terms, maxChars) == Trim(content, Whitespace)
  {
  }

  /** Longer text without any of the terms: its first half of the budget, an ellipsis, and its end. */
  lemma ShownByItsEnds(content: string, terms: seq<string>, maxChars: nat)
    requires var t := Trim(content, Whitespace);
             |t| > maxChars && forall term, k :: term in terms ==> !OccursAt(Lower(t), term, k)
    ensures var t := Trim(content, Whitespace);
            var rest := if maxChars >= maxChars / 2 + 3 then maxChars - maxChars / 2 - 3 else 0;
            Compacted(content, terms, maxChars)
            == TrimEnd(t[..maxChars / 2], Whitespace) + "..." + TrimStart(t[|t| - rest..], Whitespace)
  {
    var t := Trim(content, Whitespace);
    EarliestMeans(Lower(t), terms);
    EndsOf(t, maxChars);
  }

  lemma EndsOf(t: string, maxChars: nat)
    requires |t| > maxChars
    ensures var rest := if maxChars >= maxChars / 2 + 3 then maxChars - maxChars / 2 - 3 else 0;
            HeadAndTail(t, maxChars)
            == TrimEnd(t[..maxChars / 2], Whitespace) + "..." + TrimStart(t[|t| - rest..], Whitespace)
  {
  }

  /** Longer text with a term: a window of the budget's length, a quarter of it before the first place of any term. */
  lemma ShownAroundFirst(content: string, terms: seq<string>, maxChars: nat, term: string, at: nat)
    requires var t := Trim(content, Whitespace);
             && |t| > maxChars && term in terms && OccursAt(Lower(t), term, at)
             && forall other, k :: other in terms && k < at ==> !OccursAt(Lower(t), other, k)
    ensures var t := Trim(content, Whitespace);
            var start := if at >= maxChars / 2 / 2 then at - maxChars / 2 / 2 else 0;
            var end := if start + maxChars <= |t| then start + maxChars else |t|;
            && start <= end
            && Compacted(content, terms, maxChars)
               == (if start > 0 then "..." else "") + Trim(t[start..end], Whitespace)
                  + if end < |t| then "..." else ""
  {
    var t := Trim(content, Whitespace);
    EarliestIs(Lower(t), terms, term, at);
    assert Compacted(content, terms, maxChars) == Around(t, at, maxChars);
    WindowOf(t, at, maxChars);
  }

  lemma WindowOf(t: string, at: nat, maxChars: nat)
    requires at <= |t| && maxChars < |t|
    ensures var start := if at >= maxChars / 2 / 2 then at - maxChars / 2 / 2 else 0;
            var end := if start + maxChars <= |t| then start + maxChars else |t|;
            && start <= end
            && Around(t, at, maxChars)
               == (if start > 0 then "..." else "") + Trim(t[start..end], Whitespace)
                  + if end < |t| then "..." else ""
  {
  }

  lemma EarliestIs(lower: string, terms: seq<string>, term: string, at: nat)
    requires term in terms && OccursAt(lower, term, at)
    requires forall other, k :: other in terms && k < at ==> !OccursAt(lower, other, k)
    ensures EarliestMatch(lower, terms) == Some(at) && at <= |lower|
  {
    EarliestMeans(lower, terms);
  }

  // Length

  /** Never more than the budget and two ellipses; within the budget when no term matches. */
  lemma CompactedLength(content: string, terms: seq<string>, maxChars: nat)
    ensures |Compacted(content, terms, maxChars)| <= maxChars + 6
    ensures maxChars >= 5 && EarliestMatch(Lower(Trim(content, Whitespace)), terms).None? ==>
              |Compacted(content, terms, maxChars)| <= maxChars
  {
    var trimmed := Trim(content, Whitespace);
    EarliestMeans(Lower(trimmed), terms);
  }

  // What the excerpt shows

  lemma LowerKeepsBlank(c: char)
    ensures Whitespace(LowerChar(c)) <==> Whitespace(c)
  {
  }

  /** The window is wide enough for the matched term whenever the term fits in three quarters of it. */
  lemma ShowsMatch(content: string, terms: seq<string>, maxChars: nat, term: string)
    requires term != "" && !Whitespace(term[0]) && !Whitespace(term[|term| - 1])
    requires |term| <= maxChars - maxChars / 4
    requires var lower := Lower(Trim(content, Whitespace));
             EarliestMatch(lower, terms).Some? && OccursAt(lower, term, EarliestMatch(lower, terms).value)
    ensures Contains(Lower(Compacted(content, terms, maxChars)), term)
  {
    var s := Trim(content, Whitespace);
    var at := EarliestMatch(Lower(s), terms).value;
    if |s| <= maxChars {
      var lower := Lower(s);
      SplitAt3(lower, at, |term|);
      OccursInside(lower[..at], term, lower[at + |term|..]);
    } else {
      AroundShows(s, at, maxChars, term);
    }
  }

  lemma AroundShows(s: string, at: nat, maxChars: nat, term: string)
    requires term != "" && !Whitespace(term[0]) && !Whitespace(term[|term| - 1])
    requires |term| <= maxChars - maxChars / 4 && maxChars < |s| && OccursAt(Lower(s), term, at)
    ensures Contains(Lower(Around(s, at, maxChars)), term)
  {
    CoreOfMatch(s, at, term);
    var a, left, right, b := AroundIs(s, at, maxChars, |term|);
    ShownBetween(a, left, s[at..at + |term|], right, b);
  }

  /** The window around a match, with the match kept whole in its middle. */
  lemma AroundIs(s: string, at: nat, maxChars: nat, n: nat) returns (a: string, left: string, right: string, b: string)
    requires 0 < n <= maxChars - maxChars / 4 && maxChars < |s| && at + n <= |s|
    requires !Whitespace(s[at]) && !Whitespace(s[at + n - 1])
    ensures Around(s, at, maxChars) == a + (left + s[at..at + n] + right) + b
  {
    var start, end := WindowStart(at, maxChars), WindowEnd(s, at, maxChars);
    a, b := if start > 0 then ELLIPSIS else "", if end < |s| then ELLIPSIS else "";
    WindowCovers(s, at, maxChars, n);
    left, right := TrimmedWindow(s, start, end, at, n);
  }

  lemma WindowCovers(s: string, at: nat, maxChars: nat, n: nat)
    requires n <= maxChars - maxChars / 4 && at + n <= |s|
    ensures WindowStart(at, maxChars) <= at && at + n <= WindowEnd(s, at, maxChars) <= |s|
  {
  }

  lemma CoreOfMatch(s: string, at: nat, term: string)
    requires term != "" && !Whitespace(term[0]) && !Whitespace(term[|term| - 1]) && OccursAt(Lower(s), term, at)
    ensures at + |term| <= |s| && Lower(s[at..at + |term|]) == term
    ensures !Whitespace(s[at]) && !Whitespace(s[at + |term| - 1])
  {
    assert Lower(s)[at..at + |term|] == term;
    assert Lower(s)[at] == term[0] && Lower(s)[at + |term| - 1] == term[|term| - 1];
    LowerKeepsBlank(s[at]);
    LowerKeepsBlank(s[at + |term| - 1]);
  }

  lemma ShownBetween(a: string, left: string, core: string, right: string, b: string)
    ensures Contains(Lower(a + (left + core + right) + b), Lower(core))
  {
    Regroup(a, left, core, right, b);
    LowerThree(a + left, core, right + b);
    OccursInside(Lower(a + left), Lower(core), Lower(right + b));
  }

  lemma Regroup(a: string, left: string, core: string, right: string, b: string)
    ensures a + (left + core + right) + b == (a + left) + core + (right + b)
  {
  }

  lemma LowerThree(x: string, y: string, z: string)
    ensures Lower(x + y + z) == Lower(x) + Lower(y) + Lower(z)
  {
  }

  lemma SplitAt3(s: string, at: nat, n: nat)
    requires at + n <= |s|
    ensures s == s[..at] + s[at..at + n] + s[at + n..]
  {
  }

  lemma TrimmedWindow(s: string, start: nat, end: nat, at: nat, n: nat) returns (left: string, right: string)
    requires start <= at && 0 < n && at + n <= end <= |s|
    requires !Whitespace(s[at]) && !Whitespace(s[at + n - 1])
    ensures Trim(s[start..end], Whitespace) == left + s[at..at + n] + right
  {
    var core := s[at..at + n];
    left, right := TrimStart(s[start..at], Whitespace), TrimEnd(s[at + n..end], Whitespace);
    ThreeSlices(s, start, at, at + n, end);
    assert core[0] == s[at] && core[|core| - 1] == s[at + n - 1];
    TrimAround(s[start..at], core, s[at + n..end], Whitespace);
  }

  lemma ThreeSlices(s: string, a: nat, b: nat, c: nat, d: nat)
    requires a <= b <= c <= d <= |s|
    ensures s[a..d] == s[a..b] + s[b..c] + s[c..d]
  {
    assert s[a..d] == s[a..c] + s[c..d] && s[a..c] == s[a..b] + s[b..c];
  }
}
